/**
 * The session history table (src/components/SessionsTable.tsx): a date
 * search, newest-first ordering and the message shown for an empty table.
 * The locale date text of a timestamp (toLocaleDateString('es-MX')) is a
 * parameter, since its exact format belongs to the browser.
 */
module SessionsTable {
  import opened Types
  import opened Wrappers
  import Seqs

  /** needle occurs in hay starting at position i. */
  predicate OccursAt(hay: string, needle: string, i: int) {
    0 <= i <= |hay| - |needle| && hay[i..i + |needle|] == needle
  }

  /** String.prototype.includes: needle occurs somewhere in hay. */
  function Contains(hay: string, needle: string): (r: bool)
    ensures r <==> exists i :: OccursAt(hay, needle, i)
    decreases |hay|
  {
    if |needle| > |hay| then false
    else if hay[..|needle|] == needle then
      assert OccursAt(hay, needle, 0);
      true
    else
      ContainsShift(hay, needle);
      Contains(hay[1..], needle)
  }

  /** Past a mismatch at position 0, occurrences in hay are those in hay[1..]
      moved one place right. */
  lemma ContainsShift(hay: string, needle: string)
    requires |needle| <= |hay| && hay[..|needle|] != needle
    ensures (exists i :: OccursAt(hay, needle, i)) <==> (exists j :: OccursAt(hay[1..], needle, j))
  {
    forall j | OccursAt(hay[1..], needle, j)
      ensures OccursAt(hay, needle, j + 1)
    {
      assert hay[1..][j..j + |needle|] == hay[j + 1..j + 1 + |needle|];
    }
    forall i | OccursAt(hay, needle, i)
      ensures OccursAt(hay[1..], needle, i - 1)
    {
      assert i != 0;
      assert hay[1..][i - 1..i - 1 + |needle|] == hay[i..i + |needle|];
    }
  }

  /** The search box: an empty query keeps every session. */
  predicate Matches(s: Session, query: string, dateLabel: int -> string)
    ensures Matches(s, query, dateLabel) <==>
      query == [] || exists i :: OccursAt(dateLabel(s.startTime), query, i)
  {
    query == [] || Contains(dateLabel(s.startTime), query)
  }

  predicate NewestFirst(sessions: seq<Session>) {
    forall i, j :: 0 <= i < j < |sessions| ==> sessions[i].startTime >= sessions[j].startTime
  }

  /** Inserts s after every session that starts no earlier, so equal start
      times keep their order. */
  function InsertNewestFirst(sorted: seq<Session>, s: Session): (r: seq<Session>)
    requires NewestFirst(sorted)
    ensures NewestFirst(r)
    ensures multiset(r) == multiset(sorted) + multiset{s}
    ensures forall x :: x in r ==> x in sorted || x == s
    decreases |sorted|
  {
    if sorted == [] then [s]
    else if sorted[0].startTime >= s.startTime then
      assert sorted == [sorted[0]] + sorted[1..];
      var rest := InsertNewestFirst(sorted[1..], s);
      assert forall k :: 0 <= k < |rest| ==> rest[k].startTime <= sorted[0].startTime by {
        forall k | 0 <= k < |rest| ensures rest[k].startTime <= sorted[0].startTime {
          assert rest[k] in sorted[1..] || rest[k] == s;
        }
      }
      assert multiset([sorted[0]] + rest) == multiset{sorted[0]} + multiset(rest);
      [sorted[0]] + rest
    else
      assert multiset([s] + sorted) == multiset{s} + multiset(sorted);
      [s] + sorted
  }

  /** The table order: newest start time first, ties in input order. */
  function SortNewestFirst(sessions: seq<Session>): (r: seq<Session>)
    ensures NewestFirst(r)
    ensures multiset(r) == multiset(sessions)
    decreases |sessions|
  {
    if sessions == [] then []
    else
      assert sessions == sessions[..|sessions| - 1] + [sessions[|sessions| - 1]];
      InsertNewestFirst(SortNewestFirst(sessions[..|sessions| - 1]), sessions[|sessions| - 1])
  }

  /** The sessions that start exactly at t. */
  function StartsAt(t: int): Session -> bool {
    (s: Session) => s.startTime == t
  }

  /** Inserting s leaves the sessions tied with it in front of it. */
  lemma {:induction false} InsertKeepsTies(sorted: seq<Session>, s: Session, t: int)
    requires NewestFirst(sorted)
    ensures Seqs.Filter(InsertNewestFirst(sorted, s), StartsAt(t)) ==
      Seqs.Filter(sorted, StartsAt(t)) + Seqs.Filter([s], StartsAt(t))
    decreases |sorted|
  {
    if sorted == [] {
      assert InsertNewestFirst(sorted, s) == [s];
    } else if sorted[0].startTime >= s.startTime {
      var rest := InsertNewestFirst(sorted[1..], s);
      assert InsertNewestFirst(sorted, s) == [sorted[0]] + rest;
      assert sorted == [sorted[0]] + sorted[1..];
      InsertKeepsTies(sorted[1..], s, t);
      ConsFilter(sorted[0], rest, sorted[1..], Seqs.Filter([s], StartsAt(t)), StartsAt(t));
    } else {
      InsertInFront(sorted, s, t);
    }
  }

  /** Putting the same session in front of two lists whose matches differ
      by a suffix keeps that difference. */
  lemma ConsFilter(x: Session, rest: seq<Session>, others: seq<Session>, c: seq<Session>, p: Session -> bool)
    requires Seqs.Filter(rest, p) == Seqs.Filter(others, p) + c
    ensures Seqs.Filter([x] + rest, p) == Seqs.Filter([x] + others, p) + c
  {
    var a, b := Seqs.Filter([x], p), Seqs.Filter(others, p);
    calc {
      Seqs.Filter([x] + rest, p);
      { Seqs.FilterAppend([x], rest, p); }
      a + (b + c);
      (a + b) + c;
      { Seqs.FilterAppend([x], others, p); }
      Seqs.Filter([x] + others, p) + c;
    }
  }

  /** s goes in front of sessions that all start strictly earlier, none of
      which can tie with it. */
  lemma InsertInFront(sorted: seq<Session>, s: Session, t: int)
    requires NewestFirst(sorted) && sorted != [] && sorted[0].startTime < s.startTime
    ensures Seqs.Filter(InsertNewestFirst(sorted, s), StartsAt(t)) ==
      Seqs.Filter(sorted, StartsAt(t)) + Seqs.Filter([s], StartsAt(t))
  {
    var p := StartsAt(t);
    assert InsertNewestFirst(sorted, s) == [s] + sorted;
    Seqs.FilterAppend([s], sorted, p);
    if s.startTime == t {
      assert Seqs.Filter(sorted, p) == [] by {
        forall x | x in sorted ensures !p(x) {
          var k :| 0 <= k < |sorted| && sorted[k] == x;
          assert sorted[0].startTime >= sorted[k].startTime;
        }
      }
    } else {
      assert Seqs.Filter([s], p) == [] by {
        assert [s] == [] + [s];
      }
    }
  }

  /** The sort is stable: sessions with the same start time come out in the
      order they went in. */
  lemma {:induction false} SortKeepsTies(sessions: seq<Session>, t: int)
    ensures Seqs.Filter(SortNewestFirst(sessions), StartsAt(t)) == Seqs.Filter(sessions, StartsAt(t))
    decreases |sessions|
  {
    if sessions != [] {
      var init, last := sessions[..|sessions| - 1], sessions[|sessions| - 1];
      assert sessions == init + [last];
      SortKeepsTies(init, t);
      InsertKeepsTies(SortNewestFirst(init), last, t);
      Seqs.FilterAppend(init, [last], StartsAt(t));
    }
  }

  /** filteredSessions: the matching sessions, newest first. */
  function FilteredSessions(sessions: seq<Session>, query: string, dateLabel: int -> string): (r: seq<Session>)
    ensures NewestFirst(r)
    ensures multiset(r) == multiset(Seqs.Filter(sessions, s => Matches(s, query, dateLabel)))
  {
    SortNewestFirst(Seqs.Filter(sessions, s => Matches(s, query, dateLabel)))
  }

  /** With no query the table lists every session, each as often as stored. */
  lemma EmptyQueryKeepsAll(sessions: seq<Session>, dateLabel: int -> string)
    ensures multiset(FilteredSessions(sessions, "", dateLabel)) == multiset(sessions)
  {
    Seqs.FilterKeepsAll(sessions, s => Matches(s, "", dateLabel));
  }

  /** With a query the table lists exactly the sessions whose date text
      contains it. */
  lemma QuerySelects(sessions: seq<Session>, query: string, dateLabel: int -> string, s: Session)
    requires query != ""
    ensures s in FilteredSessions(sessions, query, dateLabel) <==>
      s in sessions && Contains(dateLabel(s.startTime), query)
  {
    var f := Seqs.Filter(sessions, x => Matches(x, query, dateLabel));
    assert s in FilteredSessions(sessions, query, dateLabel) <==> s in multiset(f);
  }

  const NoMatchesMessage := "No se encontraron sesiones."
  const NoSessionsMessage := "No hay sesiones registradas."

  /** The note under an empty table: which one depends on the query alone. */
  function EmptyNotice(visible: seq<Session>, query: string): (r: Option<string>)
    ensures r.Some? <==> visible == []
    ensures r == Some(NoMatchesMessage) <==> visible == [] && query != ""
    ensures r == Some(NoSessionsMessage) <==> visible == [] && query == ""
  {
    if |visible| == 0 then Some(if query != "" then NoMatchesMessage else NoSessionsMessage)
    else None
  }
}
