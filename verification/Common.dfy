/** Failure and absence, shared by the other modules. */
module Common {

  datatype Option<+T> = None | Some(value: T)

  datatype Result<+T, +E> = Ok(value: T) | Err(error: E)

  function Min(a: int, b: int): int {
    if a <= b then a else b
  }

  function Max(a: int, b: int): int {
    if a >= b then a else b
  }
}

/** The string operations the models share, on ASCII text. */
module Text {

  predicate IsSpace(c: char) {
    c == ' ' || '\t' <= c <= '\r' || '\U{1C}' <= c <= '\U{1F}'
  }

  function LStrip(s: string): string {
    if s != "" && IsSpace(s[0]) then LStrip(s[1..]) else s
  }

  function RStrip(s: string): string {
    if s != "" && IsSpace(s[|s| - 1]) then RStrip(s[..|s| - 1]) else s
  }

  function Strip(s: string): string {
    RStrip(LStrip(s))
  }

  /** s[i..j] is what is left when every character of a kind is taken off both ends. */
  ghost predicate Middle(kind: char -> bool, s: string, i: int, j: int) {
    && 0 <= i <= j <= |s|
    && (forall k | 0 <= k < i :: kind(s[k])) && (forall k | j <= k < |s| :: kind(s[k]))
    && (i < j ==> !kind(s[i]) && !kind(s[j - 1]))
  }

  ghost predicate Trims(kind: char -> bool, s: string, core: string) {
    exists i, j :: Middle(kind, s, i, j) && core == s[i..j]
  }

  lemma TrimsIsUnique(kind: char -> bool, s: string, a: string, b: string)
    requires Trims(kind, s, a) && Trims(kind, s, b)
    ensures a == b
  {
    var i, j :| Middle(kind, s, i, j) && a == s[i..j];
    var m, n :| Middle(kind, s, m, n) && b == s[m..n];
    if i < j {
      MiddleHolds(kind, s, i, j, m, n);
    }
    if m < n {
      MiddleHolds(kind, s, m, n, i, j);
    }
  }

  lemma MiddleHolds(kind: char -> bool, s: string, i: int, j: int, m: int, n: int)
    requires Middle(kind, s, i, j) && Middle(kind, s, m, n) && i < j
    ensures m <= i < j <= n
  {
    assert !kind(s[i]) && !kind(s[j - 1]);
  }

  /** More of the kind around a text makes no difference. */
  lemma TrimsAround(kind: char -> bool, before: string, s: string, after: string, core: string)
    requires Trims(kind, s, core)
    requires (forall c :: c in before ==> kind(c)) && forall c :: c in after ==> kind(c)
    ensures Trims(kind, before + s + after, core)
  {
    var i, j :| Middle(kind, s, i, j) && core == s[i..j];
    var all, m, n := before + s + after, |before| + i, |before| + j;
    assert all[m..n] == core;
    forall k | 0 <= k < m ensures kind(all[k]) {
      assert k < |before| ==> all[k] in before;
      assert k >= |before| ==> all[k] == s[k - |before|];
    }
    forall k | n <= k < |all| ensures kind(all[k]) {
      assert k < |before| + |s| ==> all[k] == s[k - |before|];
      assert k >= |before| + |s| ==> all[k] in after;
    }
    assert Middle(kind, all, m, n);
  }

  lemma {:induction false} LStripIs(s: string)
    ensures |LStrip(s)| <= |s| && LStrip(s) == s[|s| - |LStrip(s)|..]
    ensures forall k | 0 <= k < |s| - |LStrip(s)| :: IsSpace(s[k])
    ensures LStrip(s) != "" ==> !IsSpace(LStrip(s)[0])
  {
    if s != "" && IsSpace(s[0]) {
      var rest := s[1..];
      LStripIs(rest);
      assert LStrip(s) == LStrip(rest);
      hide LStrip, IsSpace;
      assert rest[|rest| - |LStrip(rest)|..] == s[|s| - |LStrip(rest)|..];
      assert forall k | 1 <= k < |s| - |LStrip(s)| :: s[k] == rest[k - 1];
    }
  }

  lemma {:induction false} RStripIs(s: string)
    ensures RStrip(s) <= s && forall k | |RStrip(s)| <= k < |s| :: IsSpace(s[k])
    ensures RStrip(s) != "" ==> !IsSpace(RStrip(s)[|RStrip(s)| - 1])
  {
    if s != "" && IsSpace(s[|s| - 1]) {
      var init := s[..|s| - 1];
      RStripIs(init);
      assert RStrip(s) == RStrip(init);
      hide RStrip, IsSpace;
      assert forall k | 0 <= k < |init| :: s[k] == init[k];
    }
  }

  /** strip takes off exactly the white space around a text. */
  lemma StripTrims(s: string)
    ensures Trims(IsSpace, s, Strip(s))
  {
    LStripIs(s);
    var t := LStrip(s);
    RStripIs(t);
    var i := |s| - |t|;
    var j := i + |Strip(s)|;
    assert Strip(s) == s[i..j];
    forall k | j <= k < |s| ensures IsSpace(s[k]) {
      assert s[k] == t[k - i];
    }
    assert Middle(IsSpace, s, i, j);
  }

  function LowerChar(c: char): char {
    if 'A' <= c <= 'Z' then c - 'A' + 'a' else c
  }

  function Lower(s: string): string {
    seq(|s|, i requires 0 <= i < |s| => LowerChar(s[i]))
  }

  /** The same text, but for the case of its letters. */
  predicate SameLetters(a: string, b: string) {
    |a| == |b| && forall i | 0 <= i < |a| ::
      || a[i] == b[i]
      || ('A' <= a[i] <= 'Z' && b[i] as int == a[i] as int + 32)
      || ('A' <= b[i] <= 'Z' && a[i] as int == b[i] as int + 32)
  }

  lemma LowerIff(a: string, b: string)
    ensures Lower(a) == Lower(b) <==> SameLetters(a, b)
  {
    if Lower(a) == Lower(b) {
      forall i | 0 <= i < |a| ensures LowerChar(a[i]) == LowerChar(b[i]) {
        assert Lower(a)[i] == Lower(b)[i];
      }
    }
    if SameLetters(a, b) {
      assert forall i | 0 <= i < |a| :: LowerChar(a[i]) == LowerChar(b[i]);
    }
  }

  /** The same name, but for white space around it and the case of its letters. */
  ghost predicate SameName(a: string, b: string) {
    exists x, y :: Trims(IsSpace, a, x) && Trims(IsSpace, b, y) && SameLetters(x, y)
  }

  lemma SameNameIff(a: string, b: string)
    ensures Lower(Strip(a)) == Lower(Strip(b)) <==> SameName(a, b)
  {
    hide Trims, Lower, Strip, SameLetters;
    StripTrims(a);
    StripTrims(b);
    LowerIff(Strip(a), Strip(b));
    if SameName(a, b) {
      var x, y :| Trims(IsSpace, a, x) && Trims(IsSpace, b, y) && SameLetters(x, y);
      TrimsIsUnique(IsSpace, a, x, Strip(a));
      TrimsIsUnique(IsSpace, b, y, Strip(b));
    }
  }

  function Digit(n: nat): char
    requires n < 10
  {
    (n + '0' as int) as char
  }

  function Decimal(n: nat): (r: string)
    ensures r != ""
  {
    if n < 10 then [Digit(n)] else Decimal(n / 10) + [Digit(n % 10)]
  }

  function DigitOf(c: char): nat {
    if '0' <= c <= '9' then c as nat - '0' as nat else 0
  }

  /** The number a text of digits stands for. */
  function Value(s: string): nat {
    if s == "" then 0 else 10 * Value(s[..|s| - 1]) + DigitOf(s[|s| - 1])
  }

  /** A number is written with its digits, and none to spare. */
  lemma {:induction false} DecimalIs(n: nat)
    ensures forall c :: c in Decimal(n) ==> '0' <= c <= '9'
    ensures Value(Decimal(n)) == n && (n > 0 ==> Decimal(n)[0] != '0') && (n == 0 ==> Decimal(n) == "0")
  {
    if n < 10 {
      assert Decimal(n)[..0] == "";
    } else {
      DecimalIs(n / 10);
      var d := Decimal(n);
      assert d[..|d| - 1] == Decimal(n / 10);
    }
  }
}
