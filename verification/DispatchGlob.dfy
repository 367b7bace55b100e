/** What a pattern matches (fnmatch, as backend/dispatch_routing.py uses it): a name that can be cut
    into pieces, one for each unit of the pattern. */
module DispatchGlob {
  import opened Common
  import opened DispatchPaths

  /** Any text, any character, a character itself, or one of a class. */
  datatype Unit = Star | Any | Lit(c: char) | Class(body: string)

  function TextOf(units: seq<Unit>): string {
    if units == [] then ""
    else
      (match units[0]
       case Star => "*"
       case Any => "?"
       case Lit(c) => [c]
       case Class(body) => "[" + body + "]")
      + TextOf(units[1..])
  }

  /** The class that begins `s` is s[..n]: the bracket at n is the first one after at least one
      character, not counting a negation. */
  predicate ClosesAt(s: string, n: int) {
    var least := if s != "" && s[0] == '!' then 2 else 1;
    least <= n < |s| && s[n] == ']' && forall k | least <= k < n :: s[k] != ']'
  }

  /** The body of a class has no bracket that would close it, and an opening bracket stands for
      itself only where none closes it. */
  ghost predicate Unambiguous(units: seq<Unit>)
    decreases |units|
  {
    units == []
    || (&& Unambiguous(units[1..])
        && (units[0].Lit? ==> units[0].c != '*' && units[0].c != '?')
        && (units[0] == Lit('[') ==> forall n :: !ClosesAt(TextOf(units[1..]), n))
        && (units[0].Class? ==> ClosesAt(units[0].body + "]", |units[0].body|)))
  }

  predicate UnitMatches(u: Unit, piece: string) {
    match u
    case Star => true
    case Any => |piece| == 1
    case Lit(c) => piece == [c]
    case Class(body) => |piece| == 1 && InClass(piece[0], body)
  }

  /** The name is one piece after another, each matched by its unit. */
  ghost predicate CutsInto(name: string, units: seq<Unit>)
    decreases |units|
  {
    if units == [] then name == ""
    else exists k | 0 <= k <= |name| :: UnitMatches(units[0], name[..k]) && CutsInto(name[k..], units[1..])
  }

  lemma {:induction false} ClosingIs(s: string, from: nat)
    ensures Closing(s, from).None? ==> forall k | from <= k < |s| :: s[k] != ']'
    ensures Closing(s, from).Some? ==> forall k | from <= k < Closing(s, from).value :: s[k] != ']'
    decreases |s| - from
  {
    if from < |s| && s[from] != ']' {
      ClosingIs(s, from + 1);
    }
  }

  /** A class closes where it should. */
  lemma ClassLengthIff(s: string, n: nat)
    ensures ClassLength(s) == Some(n) <==> ClosesAt(s, n)
    ensures ClassLength(s).None? <==> forall m :: !ClosesAt(s, m)
  {
    var first := if s != "" && s[0] == '!' then 1 else 0;
    ClosingIs(s, if first < |s| && s[first] == ']' then first + 1 else first);
    if ClassLength(s).Some? {
      assert ClosesAt(s, ClassLength(s).value);
    }
  }

  lemma {:induction false} StarMatchesRest(name: string, rest: string)
    ensures Glob(name, "*" + rest) <==> exists k | 0 <= k <= |name| :: Glob(name[k..], rest)
    decreases |name|
  {
    assert ("*" + rest)[1..] == rest && name[0..] == name;
    GlobStar(name, "*" + rest);
    hide Glob;
    if name != "" {
      StarMatchesRest(name[1..], rest);
      forall k | 1 <= k <= |name| ensures name[k..] == name[1..][k - 1..] {
      }
      if k :| 0 <= k <= |name| && Glob(name[k..], rest) {
        if k > 0 {
          assert Glob(name[1..][k - 1..], rest);
        }
      }
      if k :| 0 <= k <= |name[1..]| && Glob(name[1..][k..], rest) {
        assert Glob(name[k + 1..], rest);
      }
    }
  }

  lemma OneMatchesRest(name: string, u: Unit, rest: seq<Unit>)
    requires Unambiguous([u] + rest) && !u.Star?
    ensures Glob(name, TextOf([u] + rest))
            <==> name != "" && UnitMatches(u, name[..1]) && Glob(name[1..], TextOf(rest))
  {
    UnitText(u);
    assert ([u] + rest)[1..] == rest && [u][1..] == [];
    var more := TextOf(rest);
    assert TextOf([u] + rest) == TextOf([u]) + more;
    if u.Class? {
      hide Glob;
      assert ClosesAt(u.body + "]", |u.body|);
      ClassMatchesRest(name, u.body, more);
      assert TextOf([u]) + more == "[" + u.body + "]" + more;
    } else {
      assert (TextOf([u]) + more)[1..] == more;
      if u == Lit('[') {
        ClassLengthIff(more, 0);
      }
      hide ClosesAt, InClass, ClassLength, TextOf;
    }
  }

  lemma ClassMatchesRest(name: string, body: string, more: string)
    requires ClosesAt(body + "]", |body|)
    ensures Glob(name, "[" + body + "]" + more) <==> name != "" && InClass(name[0], body) && Glob(name[1..], more)
  {
    var text, n := "[" + body + "]" + more, |body|;
    assert text[1..] == body + "]" + more;
    ClosesBefore(body, more);
    ClassLengthIff(text[1..], n);
    assert text[1..n + 1] == body && text[n + 2..] == more;
    hide ClosesAt, InClass, ClassLength;
  }

  lemma ClosesBefore(body: string, more: string)
    requires ClosesAt(body + "]", |body|)
    ensures ClosesAt(body + "]" + more, |body|)
  {
    var s, t := body + "]", body + "]" + more;
    assert forall k | 0 <= k < |s| :: s[k] == t[k];
  }

  /** Main result: a pattern matches a name if and only if the name can be cut into pieces that its
      units match. */
  lemma {:induction false} GlobIff(name: string, units: seq<Unit>)
    requires Unambiguous(units)
    ensures Glob(name, TextOf(units)) <==> CutsInto(name, units)
    decreases |units|
  {
    if units != [] {
      var u, rest := units[0], units[1..];
      assert units == [u] + rest;
      if u.Star? {
        StarMatchesRest(name, TextOf(rest));
      } else {
        OneMatchesRest(name, u, rest);
      }
      forall k | 0 <= k <= |name| ensures Glob(name[k..], TextOf(rest)) <==> CutsInto(name[k..], rest) {
        GlobIff(name[k..], rest);
      }
      hide Glob, InClass;
      if !u.Star? && CutsInto(name, units) {
        var k :| 0 <= k <= |name| && UnitMatches(u, name[..k]) && CutsInto(name[k..], rest);
        assert k == 1;
      }
    }
  }

  lemma Before(u: Unit, rest: seq<Unit>)
    requires Unambiguous(rest)
    requires u.Lit? ==> u.c != '*' && u.c != '?'
    requires u == Lit('[') ==> forall n :: !ClosesAt(TextOf(rest), n)
    requires u.Class? ==> ClosesAt(u.body + "]", |u.body|)
    ensures Unambiguous([u] + rest) && TextOf([u] + rest) == TextOf([u]) + TextOf(rest)
  {
    hide ClosesAt;
    assert ([u] + rest)[1..] == rest && [u][1..] == [];
    assert TextOf([u]) + "" == TextOf([u]);
  }

  lemma ClassBefore(s: string, n: nat)
    requires ClosesAt(s, n)
    ensures ClosesAt(s[..n] + "]", n) && s == s[..n] + "]" + s[n + 1..]
  {
    var t := s[..n] + "]";
    assert forall k | 0 <= k < |t| :: t[k] == s[k];
  }

  /** What a pattern begins with. */
  lemma FirstUnit(pattern: string) returns (u: Unit, rest: string)
    requires pattern != ""
    ensures |rest| < |pattern| && pattern == TextOf([u]) + rest
    ensures u.Lit? ==> u.c != '*' && u.c != '?'
    ensures u == Lit('[') ==> forall n :: !ClosesAt(rest, n)
    ensures u.Class? ==> ClosesAt(u.body + "]", |u.body|)
  {
    hide ClosesAt, ClassLength;
    var c, tail := pattern[0], pattern[1..];
    assert pattern == [c] + tail;
    ClassLengthIff(tail, 0);
    var closing := ClassLength(tail);
    if c == '[' && closing.Some? {
      var n := closing.value;
      ClassLengthIff(tail, n);
      ClassBefore(tail, n);
      u, rest := Class(tail[..n]), tail[n + 1..];
      UnitText(u);
      assert "[" + (tail[..n] + "]" + rest) == ("[" + tail[..n] + "]") + rest;
    } else {
      u, rest := if c == '*' then Star else if c == '?' then Any else Lit(c), tail;
      UnitText(u);
    }
  }

  lemma UnitText(u: Unit)
    ensures TextOf([u]) == match u
                           case Star => "*"
                           case Any => "?"
                           case Lit(c) => [c]
                           case Class(body) => "[" + body + "]"
  {
    assert [u][1..] == [];
  }

  /** Every pattern has units. */
  lemma {:induction false} EveryPatternHasUnits(pattern: string) returns (units: seq<Unit>)
    ensures Unambiguous(units) && TextOf(units) == pattern
    decreases |pattern|
  {
    if pattern == "" {
      return [];
    }
    hide *;
    var u, rest := FirstUnit(pattern);
    var more := EveryPatternHasUnits(rest);
    Before(u, more);
    units := [u] + more;
  }

  // ---------------------------------------------------------------- classes

  /** Without a hyphen a class lists its characters, and negated all others. */
  lemma {:induction false} ListedPlain(c: char, body: string)
    requires '-' !in body
    ensures Listed(c, body) <==> c in body
  {
    if body != "" {
      assert body == [body[0]] + body[1..];
      ListedPlain(c, body[1..]);
    }
  }

  /** A range lists what lies between its ends. */
  lemma ListedRange(c: char, lo: char, hi: char, more: string)
    ensures Listed(c, [lo, '-', hi] + more) <==> lo <= c <= hi || Listed(c, more)
  {
    assert ([lo, '-', hi] + more)[3..] == more;
  }

  /** A character that is not the start of a range lists itself. */
  lemma ListedOne(c: char, x: char, more: string)
    requires |more| < 2 || more[0] != '-'
    ensures Listed(c, [x] + more) <==> c == x || Listed(c, more)
  {
    assert ([x] + more)[1..] == more;
  }

  lemma NegatedLists(c: char, body: string)
    ensures InClass(c, "!" + body) <==> !Listed(c, body)
    ensures body == "" || body[0] != '!' ==> (InClass(c, body) <==> Listed(c, body))
  {
    assert ("!" + body)[1..] == body;
  }
}
