/** Span rows as the analyzer reads them, and the parent links they form inside one trace. */
module Spans {

  datatype SpanRow = SpanRow(
    traceId: string, spanId: string, parent: string, service: string, start: int, end: int, status: int)

  /** One trace's rows have distinct span ids: the reader deduplicates with FINAL. */
  predicate UniqueIds(rows: seq<SpanRow>) {
    forall i, j :: 0 <= i < j < |rows| ==> rows[i].spanId != rows[j].spanId
  }

  function Ids(rows: seq<SpanRow>): set<string> {
    set r | r in rows :: r.spanId
  }

  /** Each span id with its parent id. */
  function Parents(rows: seq<SpanRow>): (par: map<string, string>)
    ensures par.Keys == Ids(rows)
  {
    if rows == [] then map[]
    else
      var last := rows[|rows| - 1];
      assert rows == rows[..|rows| - 1] + [last];
      Parents(rows[..|rows| - 1])[last.spanId := last.parent]
  }

  lemma {:induction false} ParentsOfUnique(rows: seq<SpanRow>, r: SpanRow)
    requires UniqueIds(rows) && r in rows
    ensures Parents(rows)[r.spanId] == r.parent
  {
    var init, last := rows[..|rows| - 1], rows[|rows| - 1];
    assert rows == init + [last];
    if r != last {
      var i :| 0 <= i < |rows| && rows[i] == r;
      assert init[i] == r;
      ParentsOfUnique(init, r);
    }
  }

  lemma RowsById(rows: seq<SpanRow>, r: SpanRow, s: SpanRow)
    requires UniqueIds(rows) && r in rows && s in rows && r.spanId == s.spanId
    ensures r == s
  {
  }

  /** Row order does not matter to the links. */
  lemma ParentsOfPermutation(rows: seq<SpanRow>, rows': seq<SpanRow>)
    requires UniqueIds(rows) && UniqueIds(rows') && multiset(rows) == multiset(rows')
    ensures Parents(rows) == Parents(rows')
  {
    assert forall r :: r in rows <==> r in multiset(rows);
    assert forall r :: r in rows' <==> r in multiset(rows');
    forall id | id in Ids(rows)
      ensures id in Ids(rows') && Parents(rows)[id] == Parents(rows')[id]
    {
      var r :| r in rows && r.spanId == id;
      ParentsOfUnique(rows, r);
      ParentsOfUnique(rows', r);
    }
    assert forall r :: r in rows' ==> r in rows;
  }

  lemma UniqueIdsOfPermutation(rows: seq<SpanRow>, rows': seq<SpanRow>)
    requires UniqueIds(rows) && multiset(rows) == multiset(rows')
    ensures UniqueIds(rows')
  {
    forall i, j | 0 <= i < j < |rows'|
      ensures rows'[i].spanId != rows'[j].spanId
    {
      assert rows'[i] in multiset(rows') && rows'[j] in multiset(rows');
      if rows'[i].spanId == rows'[j].spanId {
        RowsById(rows, rows'[i], rows'[j]);
        TwiceInMultiset(rows', i, j);
        OnceInMultiset(rows, rows'[i]);
      }
    }
  }

  lemma TwiceInMultiset(rows: seq<SpanRow>, i: nat, j: nat)
    requires i < j < |rows| && rows[i] == rows[j]
    ensures multiset(rows)[rows[i]] >= 2
  {
    assert rows == rows[..i] + [rows[i]] + rows[i + 1..j] + [rows[j]] + rows[j + 1..];
  }

  lemma OnceInMultiset(rows: seq<SpanRow>, r: SpanRow)
    requires UniqueIds(rows) && r in rows
    ensures multiset(rows)[r] == 1
  {
    var i :| 0 <= i < |rows| && rows[i] == r;
    assert rows == rows[..i] + [r] + rows[i + 1..];
    assert r !in rows[..i] && r !in rows[i + 1..];
  }
}
