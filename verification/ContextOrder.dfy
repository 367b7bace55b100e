/** The chronological order the shared context starts from (backend/activity_context.py): events
    are sorted by a key that ends in their unique identifier. */
module ContextOrder {
  import opened Common
  import opened ActivityLog

  /** -1, 0 or 1, as the first text sorts before, with or after the second. */
  function CompareText(a: string, b: string): int {
    if a == "" && b == "" then 0
    else if a == "" then -1
    else if b == "" then 1
    else if a[0] < b[0] then -1
    else if a[0] > b[0] then 1
    else CompareText(a[1..], b[1..])
  }

  lemma {:induction false} CompareTextFacts(a: string, b: string)
    ensures CompareText(a, b) == 0 <==> a == b
    ensures CompareText(a, b) == -CompareText(b, a)
    ensures -1 <= CompareText(a, b) <= 1
  {
    if a != "" && b != "" && a[0] == b[0] {
      CompareTextFacts(a[1..], b[1..]);
      assert a == [a[0]] + a[1..] && b == [b[0]] + b[1..];
    }
  }

  lemma {:induction false} CompareTextIsTransitive(a: string, b: string, c: string)
    requires CompareText(a, b) <= 0 && CompareText(b, c) <= 0
    ensures CompareText(a, c) <= 0
    ensures CompareText(a, b) < 0 || CompareText(b, c) < 0 ==> CompareText(a, c) < 0
  {
    if a != "" && b != "" && c != "" && a[0] == b[0] == c[0] {
      CompareTextIsTransitive(a[1..], b[1..], c[1..]);
    }
  }

  /** The texts of the key, compared one after another. */
  function CompareTexts(a: seq<string>, b: seq<string>): int
    requires |a| == |b|
  {
    if a == [] then 0
    else if CompareText(a[0], b[0]) != 0 then CompareText(a[0], b[0])
    else CompareTexts(a[1..], b[1..])
  }

  lemma {:induction false} CompareTextsFacts(a: seq<string>, b: seq<string>)
    requires |a| == |b|
    ensures CompareTexts(a, b) == 0 <==> a == b
    ensures CompareTexts(a, b) == -CompareTexts(b, a)
  {
    if a != [] {
      CompareTextFacts(a[0], b[0]);
      CompareTextsFacts(a[1..], b[1..]);
      hide CompareText;
      assert a == [a[0]] + a[1..] && b == [b[0]] + b[1..];
    }
  }

  lemma {:induction false} CompareTextsIsTransitive(a: seq<string>, b: seq<string>, c: seq<string>)
    requires |a| == |b| == |c| && CompareTexts(a, b) <= 0 && CompareTexts(b, c) <= 0
    ensures CompareTexts(a, c) <= 0
  {
    if a != [] {
      CompareTextFacts(a[0], b[0]);
      CompareTextFacts(b[0], c[0]);
      CompareTextIsTransitive(a[0], b[0], c[0]);
      CompareTextFacts(a[0], c[0]);
      hide CompareText;
      if CompareText(a[0], b[0]) == 0 && CompareText(b[0], c[0]) == 0 {
        CompareTextsIsTransitive(a[1..], b[1..], c[1..]);
      }
    }
  }

  function Texts(e: Event): seq<string> {
    [e.source, e.session, e.id]
  }

  /** The first event sorts no later than the second. */
  predicate NotAfter(a: Event, b: Event) {
    a.ts < b.ts || (a.ts == b.ts && (a.seqNo < b.seqNo || (a.seqNo == b.seqNo && CompareTexts(Texts(a), Texts(b)) <= 0)))
  }

  lemma NotAfterIsTransitive(a: Event, b: Event, c: Event)
    requires NotAfter(a, b) && NotAfter(b, c)
    ensures NotAfter(a, c)
  {
    if a.ts == b.ts == c.ts && a.seqNo == b.seqNo == c.seqNo {
      CompareTextsIsTransitive(Texts(a), Texts(b), Texts(c));
    }
    hide CompareTexts, Texts;
  }

  lemma NotAfterIsTotal(a: Event, b: Event)
    ensures NotAfter(a, b) || NotAfter(b, a)
    ensures NotAfter(a, b) && NotAfter(b, a) ==> a.id == b.id
  {
    CompareTextsFacts(Texts(a), Texts(b));
    assert Texts(a)[2] == a.id && Texts(b)[2] == b.id;
    hide CompareTexts, Texts;
  }

  function Insert(events: seq<Event>, e: Event): seq<Event> {
    if events == [] || NotAfter(events[|events| - 1], e) then events + [e]
    else Insert(events[..|events| - 1], e) + [events[|events| - 1]]
  }

  function Chronological(events: seq<Event>): seq<Event> {
    if events == [] then [] else Insert(Chronological(events[..|events| - 1]), events[|events| - 1])
  }

  predicate Sorted(events: seq<Event>) {
    forall i, j | 0 <= i < j < |events| :: NotAfter(events[i], events[j])
  }

  lemma Front(events: seq<Event>)
    requires events != []
    ensures events == events[..|events| - 1] + [events[|events| - 1]]
    ensures multiset(events) == multiset(events[..|events| - 1]) + multiset{events[|events| - 1]}
  {
    assert events == events[..|events| - 1] + [events[|events| - 1]];
  }

  lemma {:induction false} InsertKeepsAll(events: seq<Event>, e: Event)
    ensures multiset(Insert(events, e)) == multiset(events) + multiset{e}
  {
    hide NotAfter;
    if !(events == [] || NotAfter(events[|events| - 1], e)) {
      InsertKeepsAll(events[..|events| - 1], e);
      Front(events);
    }
  }

  lemma SortedSnoc(events: seq<Event>, e: Event)
    requires Sorted(events) && forall i | 0 <= i < |events| :: NotAfter(events[i], e)
    ensures Sorted(events + [e])
  {
    hide NotAfter;
  }

  lemma {:induction false} InsertKeepsSorted(events: seq<Event>, e: Event, end: Event)
    requires Sorted(events) && NotAfter(e, end) && forall i | 0 <= i < |events| :: NotAfter(events[i], end)
    ensures Sorted(Insert(events, e)) && forall i | 0 <= i < |Insert(events, e)| :: NotAfter(Insert(events, e)[i], end)
  {
    hide NotAfter;
    if events == [] || NotAfter(events[|events| - 1], e) {
      forall i | 0 <= i < |events| ensures NotAfter(events[i], e) {
        if i < |events| - 1 {
          NotAfterIsTransitive(events[i], events[|events| - 1], e);
        }
      }
      SortedSnoc(events, e);
    } else {
      var init, last := events[..|events| - 1], events[|events| - 1];
      NotAfterIsTotal(e, last);
      InsertKeepsSorted(init, e, last);
      var r := Insert(init, e);
      forall i | 0 <= i < |r| ensures NotAfter(r[i], end) {
        NotAfterIsTransitive(r[i], last, end);
      }
      SortedSnoc(r, last);
    }
  }

  /** The list is sorted and holds the same events. */
  lemma {:induction false} ChronologicalSorts(events: seq<Event>)
    ensures Sorted(Chronological(events)) && multiset(Chronological(events)) == multiset(events)
  {
    if events != [] {
      var init, last := events[..|events| - 1], events[|events| - 1];
      ChronologicalSorts(init);
      InsertKeepsAll(Chronological(init), last);
      Front(events);
      InsertSorts(Chronological(init), last);
    }
  }

  lemma InsertSorts(events: seq<Event>, e: Event)
    requires Sorted(events)
    ensures Sorted(Insert(events, e))
  {
    hide NotAfter;
    NotAfterIsTotal(e, e);
    if events == [] {
      InsertKeepsSorted(events, e, e);
    } else {
      var last := events[|events| - 1];
      NotAfterIsTotal(last, e);
      NotAfterIsTotal(last, last);
      var end := if NotAfter(last, e) then e else last;
      forall i | 0 <= i < |events| ensures NotAfter(events[i], end) {
        if i < |events| - 1 {
          NotAfterIsTransitive(events[i], last, end);
        }
      }
      InsertKeepsSorted(events, e, end);
    }
  }

  predicate UniqueIds(events: seq<Event>) {
    forall i, j | 0 <= i < j < |events| :: events[i].id != events[j].id
  }

  lemma SameId(events: seq<Event>, a: Event, b: Event)
    requires UniqueIds(events) && a in multiset(events) && b in multiset(events) && a.id == b.id
    ensures a == b
  {
  }

  lemma LastIsLatest(events: seq<Event>, e: Event)
    requires Sorted(events) && e in multiset(events)
    ensures NotAfter(e, events[|events| - 1])
  {
    NotAfterIsTotal(e, e);
    hide NotAfter;
    var i :| 0 <= i < |events| && events[i] == e;
  }

  lemma {:induction false} SortedSame(log: seq<Event>, a: seq<Event>, b: seq<Event>)
    requires UniqueIds(log) && multiset(a) == multiset(b) <= multiset(log) && Sorted(a) && Sorted(b)
    ensures a == b
  {
    if a == [] {
      assert |multiset(b)| == |b|;
    } else {
      assert a[|a| - 1] in multiset(a);
      assert b != [];
      var x, y := a[|a| - 1], b[|b| - 1];
      assert y in multiset(b);
      LastIsLatest(b, x);
      LastIsLatest(a, y);
      NotAfterIsTotal(x, y);
      SameId(log, x, y);
      Front(a);
      Front(b);
      hide NotAfter, UniqueIds;
      assert multiset(a[..|a| - 1]) == multiset(a) - multiset{x};
      assert multiset(b[..|b| - 1]) == multiset(b) - multiset{x};
      SortedSame(log, a[..|a| - 1], b[..|b| - 1]);
    }
  }

  /** Main result: whatever order the store returns the events in, the context starts from the
      same list. */
  lemma StoreOrderDoesNotMatter(a: seq<Event>, b: seq<Event>)
    requires multiset(a) == multiset(b) && UniqueLog(a)
    ensures Chronological(a) == Chronological(b)
  {
    ChronologicalSorts(a);
    ChronologicalSorts(b);
    SortedSame(a, Chronological(a), Chronological(b));
  }
}
