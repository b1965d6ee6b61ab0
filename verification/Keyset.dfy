/** Pages in emission order behind an id cursor, and the client's walk over them.
    The table may grow between pages. */
module Keyset {
  import opened Wrappers
  import opened Chain
  import opened Store
  import opened Paging
  import opened Text
  import Arithmetic

  // ---- ORDER BY ledger, event_index, id ----

  predicate RowBefore(a: Row, b: Row) {
    || Before(a.event.ledger, a.event.index, b.event.ledger, b.event.index)
    || (a.event.ledger == b.event.ledger && a.event.index == b.event.index && a.id < b.id)
  }

  predicate Precedes(asc: bool, a: Row, b: Row) {
    if asc then RowBefore(a, b) else RowBefore(b, a)
  }

  function Select(rows: seq<Row>, q: Query, asc: bool, after: Option<int>): seq<Row> {
    if rows == [] then []
    else
      var last := rows[|rows| - 1];
      Select(rows[..|rows| - 1], q, asc, after) + (if Keeps(q, asc, after, last) then [last] else [])
  }

  function Place(asc: bool, r: Row, sorted: seq<Row>): seq<Row> {
    if sorted == [] then [r]
    else if Precedes(asc, r, sorted[0]) then [r] + sorted
    else [sorted[0]] + Place(asc, r, sorted[1..])
  }

  function OrderBy(asc: bool, rows: seq<Row>): seq<Row> {
    if rows == [] then [] else Place(asc, rows[|rows| - 1], OrderBy(asc, rows[..|rows| - 1]))
  }

  /** Everything a query selects past a cursor, in its order. */
  function Found(rows: seq<Row>, q: Query, asc: bool, after: Option<int>): seq<Row> {
    OrderBy(asc, Select(rows, q, asc, after))
  }

  datatype EventsPage = EventsPage(rows: seq<Row>, next: Option<int>)

  /** One page: `limit` rows, and the last one's id if more remain. */
  function PageOf(rows: seq<Row>, q: Query, asc: bool, after: Option<int>, limit: nat): EventsPage
    requires 1 <= limit
  {
    var found := Found(rows, q, asc, after);
    if |found| > limit then EventsPage(found[..limit], Some(found[limit - 1].id)) else EventsPage(found, None)
  }

  // ---- Emission order and id order agree ----

  /** Strictly by id, in the direction of the walk. */
  predicate ById(asc: bool, rows: seq<Row>) {
    forall i, j | 0 <= i < j < |rows| :: if asc then rows[i].id < rows[j].id else rows[j].id < rows[i].id
  }

  /** On these rows the sort order is the id order. */
  ghost predicate Agree(rows: seq<Row>) {
    forall i, j | 0 <= i < |rows| && 0 <= j < |rows| && i != j ::
      rows[i].id != rows[j].id && (RowBefore(rows[i], rows[j]) <==> rows[i].id < rows[j].id)
  }

  lemma {:induction false} SelectMembers(rows: seq<Row>, q: Query, asc: bool, after: Option<int>)
    ensures forall r :: r in Select(rows, q, asc, after) <==> r in rows && Keeps(q, asc, after, r)
  {
    hide Keeps;
    if rows != [] {
      SelectMembers(rows[..|rows| - 1], q, asc, after);
      assert rows == rows[..|rows| - 1] + [rows[|rows| - 1]];
    }
  }

  lemma {:induction false} PlaceMembers(asc: bool, r: Row, sorted: seq<Row>)
    ensures |Place(asc, r, sorted)| == |sorted| + 1
    ensures forall x :: x in Place(asc, r, sorted) <==> x == r || x in sorted
  {
    hide Precedes;
    if sorted != [] {
      PlaceMembers(asc, r, sorted[1..]);
      assert sorted == [sorted[0]] + sorted[1..];
    }
  }

  lemma {:induction false} OrderByMembers(asc: bool, rows: seq<Row>)
    ensures |OrderBy(asc, rows)| == |rows|
    ensures forall x :: x in OrderBy(asc, rows) <==> x in rows
  {
    if rows != [] {
      var init := rows[..|rows| - 1];
      OrderByMembers(asc, init);
      PlaceMembers(asc, rows[|rows| - 1], OrderBy(asc, init));
      assert rows == init + [rows[|rows| - 1]];
    }
  }

  /** By ledger, then by event index, then by id. */
  ghost predicate InSequence(a: Row, b: Row) {
    || a.event.ledger < b.event.ledger
    || (a.event.ledger == b.event.ledger
        && (a.event.index < b.event.index || (a.event.index == b.event.index && a.id <= b.id)))
  }

  ghost predicate Follows(asc: bool, a: Row, b: Row) {
    if asc then InSequence(a, b) else InSequence(b, a)
  }

  ghost predicate Sorted(asc: bool, rows: seq<Row>) {
    forall i, j | 0 <= i < j < |rows| :: Follows(asc, rows[i], rows[j])
  }

  lemma PrecedesFollows(asc: bool, a: Row, b: Row)
    ensures if Precedes(asc, a, b) then Follows(asc, a, b) else Follows(asc, b, a)
  {
  }

  lemma SortedHead(asc: bool, first: Row, rest: seq<Row>)
    requires Sorted(asc, rest) && forall x | x in rest :: Follows(asc, first, x)
    ensures Sorted(asc, [first] + rest)
  {
    hide Follows;
    forall i, j | 0 <= i < j < |[first] + rest|
      ensures Follows(asc, ([first] + rest)[i], ([first] + rest)[j])
    {
      assert ([first] + rest)[j] == rest[j - 1];
    }
  }

  lemma SortedTail(asc: bool, rows: seq<Row>)
    requires rows != [] && Sorted(asc, rows)
    ensures Sorted(asc, rows[1..]) && forall x | x in rows[1..] :: Follows(asc, rows[0], x)
  {
    hide Follows;
    assert forall i | 0 <= i < |rows[1..]| :: rows[1..][i] == rows[i + 1];
  }

  lemma FollowsOn(asc: bool, a: Row, b: Row, c: Row)
    requires Follows(asc, a, b) && Follows(asc, b, c)
    ensures Follows(asc, a, c)
  {
  }

  lemma {:induction false} PlaceSorts(asc: bool, r: Row, sorted: seq<Row>)
    requires Sorted(asc, sorted)
    ensures Sorted(asc, Place(asc, r, sorted))
  {
    hide Precedes, Follows;
    if sorted == [] {
    } else {
      var first, rest := sorted[0], sorted[1..];
      SortedTail(asc, sorted);
      PrecedesFollows(asc, r, first);
      assert sorted == [first] + rest;
      if Precedes(asc, r, first) {
        forall x | x in rest
          ensures Follows(asc, r, x)
        {
          FollowsOn(asc, r, first, x);
        }
        SortedHead(asc, r, sorted);
      } else {
        PlaceSorts(asc, r, rest);
        PlaceMembers(asc, r, rest);
        SortedHead(asc, first, Place(asc, r, rest));
      }
    }
  }

  lemma {:induction false} PlaceKeeps(asc: bool, r: Row, sorted: seq<Row>)
    ensures multiset(Place(asc, r, sorted)) == multiset(sorted) + multiset{r}
  {
    hide Precedes;
    if sorted != [] {
      PlaceKeeps(asc, r, sorted[1..]);
      assert sorted == [sorted[0]] + sorted[1..];
    }
  }

  /** Whatever the rows, the answer holds each of them as often as they do, sorted. */
  lemma {:induction false} OrderBySorts(asc: bool, rows: seq<Row>)
    ensures Sorted(asc, OrderBy(asc, rows)) && multiset(OrderBy(asc, rows)) == multiset(rows)
  {
    if rows == [] {
    } else {
      hide Sorted;
      var init, last := rows[..|rows| - 1], rows[|rows| - 1];
      OrderBySorts(asc, init);
      PlaceSorts(asc, last, OrderBy(asc, init));
      PlaceKeeps(asc, last, OrderBy(asc, init));
      assert rows == init + [last];
    }
  }

  ghost predicate OccursAt(part: string, text: string, k: nat) {
    k + |part| <= |text| && forall i | 0 <= i < |part| :: text[k + i] == part[i]
  }

  ghost predicate Occurs(part: string, text: string) {
    exists k | 0 <= k <= |text| :: OccursAt(part, text, k)
  }

  /** Which rows a query finds, filter by filter. A filter that is empty or not positive filters nothing. */
  lemma {:induction false} FoundMeans(rows: seq<Row>, q: Query, asc: bool, after: Option<int>, r: Row)
    ensures r in Found(rows, q, asc, after) <==>
            && r in rows
            && r.event.contract == q.contract
            && (q.name == "" || q.name == r.event.name)
            && (q.fromLedger <= 0 || q.fromLedger <= r.event.ledger)
            && (q.toLedger <= 0 || r.event.ledger <= q.toLedger)
            && (q.topicContains == ""
                || (r.event.topics.Some?
                    && exists i | 0 <= i < |r.event.topics.value| :: Occurs(q.topicContains, r.event.topics.value[i])))
            && (after.None? || (asc && after.value < r.id) || (!asc && r.id < after.value))
  {
    OrderByMembers(asc, Select(rows, q, asc, after));
    SelectMembers(rows, q, asc, after);
    hide OrderBy, Select, Contains, Occurs;
    if r.event.topics.Some? {
      forall i | 0 <= i < |r.event.topics.value|
        ensures Contains(r.event.topics.value[i], q.topicContains) <==> Occurs(q.topicContains, r.event.topics.value[i])
      {
        ContainsMeans(r.event.topics.value[i], q.topicContains);
      }
    }
  }

  lemma ContainsMeans(s: string, part: string)
    ensures Contains(s, part) <==> Occurs(part, s)
  {
    if k :| 0 <= k <= |s| && OccursAt(part, s, k) {
      assert part <= s[k..];
    }
    if k :| 0 <= k <= |s| && part <= s[k..] {
      assert forall i | 0 <= i < |part| :: part[i] == s[k..][i] == s[k + i];
      assert OccursAt(part, s, k);
    }
  }

  ghost predicate PlacesById(asc: bool, r: Row, sorted: seq<Row>) {
    forall i | 0 <= i < |sorted| ::
      r.id != sorted[i].id && (Precedes(asc, r, sorted[i]) <==> if asc then r.id < sorted[i].id
                               else sorted[i].id < r.id)
  }

  lemma {:induction false} PlaceById(asc: bool, r: Row, sorted: seq<Row>)
    requires ById(asc, sorted) && PlacesById(asc, r, sorted)
    ensures ById(asc, Place(asc, r, sorted))
  {
    hide Precedes;
    if sorted != [] && !Precedes(asc, r, sorted[0]) {
      PlaceById(asc, r, sorted[1..]);
      PlaceMembers(asc, r, sorted[1..]);
      var rest := Place(asc, r, sorted[1..]);
      forall j | 0 <= j < |rest|
        ensures if asc then sorted[0].id < rest[j].id else rest[j].id < sorted[0].id
      {
        assert rest[j] in rest;
      }
    }
  }

  lemma {:induction false} OrderByIsById(asc: bool, rows: seq<Row>)
    requires Agree(rows)
    ensures ById(asc, OrderBy(asc, rows))
  {
    if rows != [] {
      var init, last := rows[..|rows| - 1], rows[|rows| - 1];
      OrderByIsById(asc, init);
      OrderByMembers(asc, init);
      var sorted := OrderBy(asc, init);
      forall i | 0 <= i < |sorted|
        ensures last.id != sorted[i].id
                  && (Precedes(asc, last, sorted[i]) <==> if asc then last.id < sorted[i].id
                      else sorted[i].id < last.id)
      {
        assert sorted[i] in init;
        var k :| 0 <= k < |init| && init[k] == sorted[i];
        assert rows[k] == sorted[i];
      }
      PlaceById(asc, last, sorted);
    }
  }

  /** Two rows of one contract, in table order, sort the same way by id. */
  lemma PairAgrees(a: Row, b: Row)
    requires InOrder(a, b) && a.event.contract == b.event.contract
    ensures a.id != b.id && (RowBefore(a, b) <==> a.id < b.id) && (RowBefore(b, a) <==> b.id < a.id)
  {
  }

  lemma KeepsContract(q: Query, asc: bool, after: Option<int>, r: Row)
    requires Keeps(q, asc, after, r)
    ensures r.event.contract == q.contract
  {
  }

  lemma {:induction false} SelectAgrees(rows: seq<Row>, q: Query, asc: bool, after: Option<int>)
    requires TableOrder(rows)
    ensures Agree(Select(rows, q, asc, after))
  {
    hide Keeps, InOrder, RowBefore;
    if rows != [] {
      var init, last := rows[..|rows| - 1], rows[|rows| - 1];
      SelectAgrees(init, q, asc, after);
      if Keeps(q, asc, after, last) {
        SelectMembers(init, q, asc, after);
        KeepsContract(q, asc, after, last);
        var kept := Select(init, q, asc, after);
        forall i | 0 <= i < |kept|
          ensures var r := kept[i];
                  && r.id != last.id
                  && (RowBefore(r, last) <==> r.id < last.id) && (RowBefore(last, r) <==> last.id < r.id)
        {
          assert kept[i] in kept;
          var k :| 0 <= k < |init| && init[k] == kept[i];
          assert InOrder(rows[k], last);
          KeepsContract(q, asc, after, kept[i]);
          PairAgrees(kept[i], last);
        }
      }
    }
  }

  /** On a table the poller keeps, a query's answer is sorted by id and holds exactly what it asks for. */
  lemma FoundIsById(rows: seq<Row>, q: Query, asc: bool, after: Option<int>)
    requires TableOrder(rows)
    ensures ById(asc, Found(rows, q, asc, after))
    ensures forall r :: r in Found(rows, q, asc, after) <==> r in rows && Keeps(q, asc, after, r)
  {
    SelectAgrees(rows, q, asc, after);
    OrderByIsById(asc, Select(rows, q, asc, after));
    OrderByMembers(asc, Select(rows, q, asc, after));
    SelectMembers(rows, q, asc, after);
  }

  /** A list sorted by id is determined by its members. */
  lemma {:induction false} SameMembersSameList(asc: bool, a: seq<Row>, b: seq<Row>)
    requires ById(asc, a) && ById(asc, b) && forall r :: r in a <==> r in b
    ensures a == b
  {
    assert a != [] ==> a[0] in b;
    assert b != [] ==> b[0] in a;
    if a != [] {
      HeadsAgree(asc, a, b);
      forall r
        ensures r in a[1..] <==> r in b[1..]
      {
        TailMember(asc, a, r);
        TailMember(asc, b, r);
      }
      SameMembersSameList(asc, a[1..], b[1..]);
    }
  }

  lemma TailMember(asc: bool, a: seq<Row>, r: Row)
    requires ById(asc, a) && a != []
    ensures r in a[1..] <==> r in a && r != a[0]
  {
    assert a == [a[0]] + a[1..];
  }

  lemma HeadsAgree(asc: bool, a: seq<Row>, b: seq<Row>)
    requires ById(asc, a) && ById(asc, b) && a != [] && b != [] && forall r :: r in a <==> r in b
    ensures a[0] == b[0]
  {
    assert a[0] in b && b[0] in a;
    var i :| 0 <= i < |a| && a[i] == b[0];
    var j :| 0 <= j < |b| && b[j] == a[0];
  }

  /** Resuming after the k-th row found continues exactly where it stood. */
  lemma ResumeAfter(rows: seq<Row>, q: Query, asc: bool, after: Option<int>, k: nat)
    requires TableOrder(rows) && 0 < k <= |Found(rows, q, asc, after)|
    ensures var f := Found(rows, q, asc, after);
            Found(rows, q, asc, Some(f[k - 1].id)) == f[k..]
  {
    hide Found, TableOrder, Matches;
    var f := Found(rows, q, asc, after);
    var cursor := Some(f[k - 1].id);
    FoundIsById(rows, q, asc, after);
    FoundIsById(rows, q, asc, cursor);
    assert f[k - 1] in f;
    forall r
      ensures r in f[k..] <==> r in Found(rows, q, asc, cursor)
    {
      PastIsTail(asc, f, k, r);
    }
    SameMembersSameList(asc, f[k..], Found(rows, q, asc, cursor));
  }

  lemma PastIsTail(asc: bool, f: seq<Row>, k: nat, r: Row)
    requires ById(asc, f) && 0 < k <= |f|
    ensures r in f[k..] <==> r in f && Past(asc, Some(f[k - 1].id), r.id)
  {
    if r in f[k..] {
      var i :| 0 <= i < |f[k..]| && f[k..][i] == r;
      assert f[k + i] == r;
    }
    if r in f && Past(asc, Some(f[k - 1].id), r.id) {
      var i :| 0 <= i < |f| && f[i] == r;
      assert i >= k;
      assert f[k..][i - k] == r;
    }
  }

  // ---- A table that grows between pages ----

  /** What a reader of contract c sees of a later table: its rows are still there
      and every new one has a larger id. */
  ghost predicate Later(c: string, t: seq<Row>, t': seq<Row>) {
    && (forall r :: r in t && r.event.contract == c ==> r in t')
    && (forall r, r' :: r' in t' && r'.event.contract == c && r' !in t && r in t && r.event.contract == c ==>
        r.id < r'.id)
  }

  ghost predicate Growing(c: string, tables: seq<seq<Row>>) {
    && (forall i | 0 <= i < |tables| :: TableOrder(tables[i]))
    && (forall i, j | 0 <= i <= j < |tables| :: Later(c, tables[i], tables[j]))
  }

  /** The rows a walk yielded, the pages it fetched, and whether it ran out of cursor. */
  datatype Walked = Walked(rows: seq<Row>, pages: nat, done: bool)

  /** Page i is read from tables[i]; a walk that outlives `tables` was left early. */
  function Walk(tables: seq<seq<Row>>, q: Query, asc: bool, after: Option<int>, limit: nat): Walked
    requires 1 <= limit
    decreases |tables|
  {
    if tables == [] then Walked([], 0, false)
    else
      var page := PageOf(tables[0], q, asc, after, limit);
      if page.next.None? then Walked(page.rows, 1, true)
      else
        var rest := Walk(tables[1..], q, asc, page.next, limit);
        Walked(page.rows + rest.rows, rest.pages + 1, rest.done)
  }

  lemma GrowingTail(c: string, tables: seq<seq<Row>>)
    requires Growing(c, tables) && tables != []
    ensures Growing(c, tables[1..])
    ensures TableOrder(tables[0])
    ensures forall i | 0 <= i < |tables| :: Later(c, tables[0], tables[i])
    ensures forall i | 0 <= i < |tables[1..]| :: Later(c, tables[0], tables[1..][i])
  {
    hide Later, TableOrder;
    assert forall i | 0 <= i < |tables[1..]| :: tables[1..][i] == tables[i + 1];
  }

  /** Past a stored row, a descending query cannot see what was stored later. */
  lemma DescendingIsBlindToNewRows(t: seq<Row>, t': seq<Row>, q: Query, cursor: Row)
    requires TableOrder(t) && TableOrder(t') && Later(q.contract, t, t')
    requires cursor in t && cursor.event.contract == q.contract
    ensures Found(t', q, false, Some(cursor.id)) == Found(t, q, false, Some(cursor.id))
  {
    hide Found, TableOrder;
    FoundIsById(t, q, false, Some(cursor.id));
    FoundIsById(t', q, false, Some(cursor.id));
    SameMembersSameList(false, Found(t', q, false, Some(cursor.id)), Found(t, q, false, Some(cursor.id)));
  }

  /** A descending walk resumed from a stored row yields what the first table holds below it. */
  lemma {:induction false} DescendingTail(t: seq<Row>, tables: seq<seq<Row>>, q: Query, cursor: Row, limit: nat)
    requires 1 <= limit && TableOrder(t) && Growing(q.contract, tables)
    requires forall i | 0 <= i < |tables| :: Later(q.contract, t, tables[i])
    requires cursor in t && cursor.event.contract == q.contract
    ensures var walk := Walk(tables, q, false, Some(cursor.id), limit);
            && walk.rows <= Found(t, q, false, Some(cursor.id))
            && (walk.done ==> walk.rows == Found(t, q, false, Some(cursor.id)))
    decreases |tables|
  {
    hide Found, TableOrder, Later, Matches;
    if tables != [] {
      var f := Found(t, q, false, Some(cursor.id));
      DescendingIsBlindToNewRows(t, tables[0], q, cursor);
      FoundIsById(t, q, false, Some(cursor.id));
      if |f| > limit {
        var last := f[limit - 1];
        assert last in f;
        MatchesContract(q, last);
        ResumeAfter(t, q, false, Some(cursor.id), limit);
        GrowingTail(q.contract, tables);
        DescendingTail(t, tables[1..], q, last, limit);
        assert f == f[..limit] + f[limit..];
      }
    }
  }

  lemma MatchesContract(q: Query, r: Row)
    requires Matches(q, r.event)
    ensures r.event.contract == q.contract
  {
  }

  /** A descending walk yields exactly the rows that matched at its first page, newest first. */
  lemma DescendingWalkIsStable(tables: seq<seq<Row>>, q: Query, after: Option<int>, limit: nat)
    requires 1 <= limit && tables != [] && Growing(q.contract, tables)
    ensures var walk := Walk(tables, q, false, after, limit);
            && walk.rows <= Found(tables[0], q, false, after)
            && (walk.done ==> walk.rows == Found(tables[0], q, false, after))
  {
    hide Found, TableOrder, Later, Matches, Growing, ById;
    var f := Found(tables[0], q, false, after);
    GrowingTail(q.contract, tables);
    FoundIsById(tables[0], q, false, after);
    if |f| > limit {
      var last := f[limit - 1];
      assert last in f;
      MatchesContract(q, last);
      ResumeAfter(tables[0], q, false, after, limit);
      DescendingTail(tables[0], tables[1..], q, last, limit);
      assert f == f[..limit] + f[limit..];
    }
  }

  /** What an early page holds up to its last row, a later table holds too, and nothing else up to there. */
  lemma AscendingPagesStay(t: seq<Row>, t': seq<Row>, q: Query, after: Option<int>, k: nat)
    requires TableOrder(t) && TableOrder(t') && Later(q.contract, t, t')
    requires 0 < k <= |Found(t, q, true, after)|
    ensures var f := Found(t, q, true, after);
            Found(t', q, true, after) == f[..k] + Found(t', q, true, Some(f[k - 1].id))
  {
    hide Found, TableOrder;
    var f := Found(t, q, true, after);
    var cursor := f[k - 1];
    var rest := Found(t', q, true, Some(cursor.id));
    FoundIsById(t, q, true, after);
    FoundIsById(t', q, true, after);
    FoundIsById(t', q, true, Some(cursor.id));
    assert cursor in f;
    forall r
      ensures r in f[..k] + rest <==> r in Found(t', q, true, after)
    {
      HeadMember(f, k, r);
    }
    assert ById(true, f[..k] + rest) by {
      forall i | 0 <= i < |rest|
        ensures cursor.id < rest[i].id
      {
        assert rest[i] in rest;
      }
    }
    SameMembersSameList(true, f[..k] + rest, Found(t', q, true, after));
  }

  lemma HeadMember(f: seq<Row>, k: nat, r: Row)
    requires ById(true, f) && 0 < k <= |f|
    ensures r in f[..k] <==> r in f && r.id <= f[k - 1].id
  {
    if r in f[..k] {
      var i :| 0 <= i < |f[..k]| && f[..k][i] == r;
      assert f[i] == r;
    }
    if r in f && r.id <= f[k - 1].id {
      var i :| 0 <= i < |f| && f[i] == r;
      assert i < k;
      assert f[..k][i] == r;
    }
  }

  /** An ascending walk that ends has yielded exactly what its last table holds, oldest first. */
  lemma {:induction false} AscendingWalkCatchesUp(tables: seq<seq<Row>>, q: Query, after: Option<int>, limit: nat)
    requires 1 <= limit && Growing(q.contract, tables)
    ensures var walk := Walk(tables, q, true, after, limit);
            && walk.pages <= |tables|
            && (walk.done ==> walk.pages > 0 && walk.rows == Found(tables[walk.pages - 1], q, true, after))
    decreases |tables|
  {
    hide Found, TableOrder, Later, Matches;
    if tables != [] {
      var f := Found(tables[0], q, true, after);
      if |f| > limit {
        var walk := Walk(tables, q, true, after, limit);
        var cursor := Some(f[limit - 1].id);
        var rest := Walk(tables[1..], q, true, cursor, limit);
        GrowingTail(q.contract, tables);
        AscendingWalkCatchesUp(tables[1..], q, cursor, limit);
        if walk.done {
          var final := tables[walk.pages - 1];
          assert final == tables[1..][rest.pages - 1];
          AscendingPagesStay(tables[0], final, q, after, limit);
        }
      }
    }
  }

  /** So it yields every row present at its start exactly once and in order, and after them only newer rows. */
  lemma AscendingWalkKeepsStart(tables: seq<seq<Row>>, q: Query, after: Option<int>, limit: nat)
    requires 1 <= limit && Growing(q.contract, tables)
    requires Walk(tables, q, true, after, limit).done
    ensures var walk := Walk(tables, q, true, after, limit);
            && tables != []
            && Found(tables[0], q, true, after) <= walk.rows
            && ById(true, walk.rows)
  {
    hide Found, TableOrder, Later, Matches;
    AscendingWalkCatchesUp(tables, q, after, limit);
    var walk := Walk(tables, q, true, after, limit);
    var final := tables[walk.pages - 1];
    FoundIsById(final, q, true, after);
    var f := Found(tables[0], q, true, after);
    if f != [] {
      AscendingPagesStay(tables[0], final, q, after, |f|);
      assert f[..|f|] == f;
    }
  }

  // ---- A table that stands still ----

  /** On a fixed table a walk yields all that matches, in order, without repeats or
      omissions, in ceil(n / limit) pages, or one page when nothing matches. */
  lemma {:induction false} FixedWalk(tables: seq<seq<Row>>, t: seq<Row>, q: Query, asc: bool, after: Option<int>,
                                     limit: nat)
    requires 1 <= limit && TableOrder(t) && tables != [] && forall i | 0 <= i < |tables| :: tables[i] == t
    requires |Found(t, q, asc, after)| <= |tables| * limit
    ensures var walk := Walk(tables, q, asc, after, limit);
            var n := |Found(t, q, asc, after)|;
            && walk.done && walk.rows == Found(t, q, asc, after)
            && (if n == 0 then walk.pages == 1 else (walk.pages - 1) * limit < n <= walk.pages * limit)
    decreases |tables|
  {
    hide Found, TableOrder;
    var f := Found(t, q, asc, after);
    var walk := Walk(tables, q, asc, after, limit);
    if |f| > limit {
      var cursor := Some(f[limit - 1].id);
      ResumeAfter(t, q, asc, after, limit);
      MoreTables(|tables|, limit, |f|);
      FixedWalk(tables[1..], t, q, asc, cursor, limit);
      assert f == f[..limit] + f[limit..];
      OneMorePage(walk.pages, limit);
    }
  }

  lemma MoreTables(count: nat, limit: nat, n: nat)
    requires 1 <= limit < n <= count * limit
    ensures 1 < count && n - limit <= (count - 1) * limit
  {
    Arithmetic.MulSuccessor(count - 1, limit);
    Arithmetic.MulOrder(1, count, limit);
  }

  lemma OneMorePage(pages: int, limit: nat)
    ensures (pages - 1) * limit == (pages - 2) * limit + limit
    ensures pages * limit == (pages - 1) * limit + limit
  {
    Arithmetic.MulSuccessor(pages - 2, limit);
    Arithmetic.MulSuccessor(pages - 1, limit);
  }

  // ---- Why ids must run in emission order ----

  predicate InKeyOrder(asc: bool, rows: seq<Row>) {
    forall i, j | 0 <= i < j < |rows| :: !Precedes(asc, rows[j], rows[i])
  }

  lemma PrecedesChains(asc: bool, a: Row, b: Row, c: Row)
    ensures !Precedes(asc, b, a) && !Precedes(asc, c, b) ==> !Precedes(asc, c, a)
    ensures Precedes(asc, a, b) ==> !Precedes(asc, b, a)
  {
  }

  lemma {:induction false} PlaceInKeyOrder(asc: bool, r: Row, sorted: seq<Row>)
    requires InKeyOrder(asc, sorted)
    ensures InKeyOrder(asc, Place(asc, r, sorted))
  {
    hide Precedes;
    if sorted != [] {
      if Precedes(asc, r, sorted[0]) {
        forall i | 0 <= i < |sorted|
          ensures !Precedes(asc, sorted[i], r)
        {
          PrecedesChains(asc, r, sorted[0], sorted[i]);
        }
      } else {
        PlaceInKeyOrder(asc, r, sorted[1..]);
        PlaceMembers(asc, r, sorted[1..]);
        var rest := Place(asc, r, sorted[1..]);
        forall i | 0 <= i < |rest|
          ensures !Precedes(asc, rest[i], sorted[0])
        {
          assert rest[i] in rest;
        }
      }
    }
  }

  lemma {:induction false} OrderByInKeyOrder(asc: bool, rows: seq<Row>)
    ensures InKeyOrder(asc, OrderBy(asc, rows))
  {
    if rows != [] {
      OrderByInKeyOrder(asc, rows[..|rows| - 1]);
      PlaceInKeyOrder(asc, rows[|rows| - 1], OrderBy(asc, rows[..|rows| - 1]));
    }
  }

  /** One row at a time, a walk's ids only ever move one way, whatever the table. */
  lemma {:induction false} SingleRowWalkIsById(tables: seq<seq<Row>>, q: Query, asc: bool, after: Option<int>)
    ensures var walk := Walk(tables, q, asc, after, 1);
            ById(asc, walk.rows) && forall r | r in walk.rows :: Past(asc, after, r.id)
    decreases |tables|
  {
    hide Found;
    if tables != [] {
      var f := Found(tables[0], q, asc, after);
      FoundIsPast(tables[0], q, asc, after);
      if |f| > 1 {
        SingleRowWalkIsById(tables[1..], q, asc, Some(f[0].id));
        var rest := Walk(tables[1..], q, asc, Some(f[0].id), 1).rows;
        assert f[..1] == [f[0]];
        assert forall i | 0 <= i < |rest| :: rest[i] in rest;
      }
    }
  }

  lemma FoundIsPast(rows: seq<Row>, q: Query, asc: bool, after: Option<int>)
    ensures forall i | 0 <= i < |Found(rows, q, asc, after)| :: Past(asc, after, Found(rows, q, asc, after)[i].id)
  {
    hide Matches, Past, Select;
    var f := Found(rows, q, asc, after);
    OrderByMembers(asc, Select(rows, q, asc, after));
    SelectMembers(rows, q, asc, after);
    assert forall i | 0 <= i < |f| :: f[i] in f;
  }

  function Unfiltered(c: string): Query {
    Query(c, "", 0, 0, 1, "", "asc", "")
  }

  function Copies(t: seq<Row>, n: nat): seq<seq<Row>> {
    seq(n, i => t)
  }

  lemma {:induction false} SelectAll(rows: seq<Row>, c: string)
    requires c != "" && forall i | 0 <= i < |rows| :: rows[i].event.contract == c
    ensures Select(rows, Unfiltered(c), true, None) == rows
  {
    if rows != [] {
      SelectAll(rows[..|rows| - 1], c);
    }
  }

  /** Two rows of a list sorted both by key and by id are in emission order. */
  lemma OrderFromList(f: seq<Row>, a: Row, b: Row)
    requires ById(true, f) && InKeyOrder(true, f) && a in f && b in f
    requires a.id != b.id && (a.event.ledger != b.event.ledger || a.event.index != b.event.index)
    ensures InOrder(a, b)
  {
    var m :| 0 <= m < |f| && f[m] == a;
    var n :| 0 <= n < |f| && f[n] == b;
  }

  /** The id cursor is a sound stand-in for (ledger, event_index) exactly when ids
      run in emission order: otherwise some page size loses or reorders rows. */
  lemma KeysetNeedsEmissionOrder(t: seq<Row>, c: string)
    requires c != "" && forall i | 0 <= i < |t| :: t[i].event.contract == c
    requires UniqueKeys(t) && forall i, j | 0 <= i < j < |t| :: t[i].id != t[j].id
    ensures TableOrder(t) <==>
            Walk(Copies(t, |t| + 1), Unfiltered(c), true, None, 1).rows == Found(t, Unfiltered(c), true, None)
  {
    var q := Unfiltered(c);
    var f := Found(t, q, true, None);
    SelectAll(t, c);
    OrderByMembers(true, t);
    hide Found, Walk, OrderBy, ById, InKeyOrder, Select;
    if TableOrder(t) {
      FixedWalk(Copies(t, |t| + 1), t, q, true, None, 1);
    }
    if Walk(Copies(t, |t| + 1), q, true, None, 1).rows == f {
      SingleRowWalkIsById(Copies(t, |t| + 1), q, true, None);
      OrderByInKeyOrder(true, t);
      forall i, j | 0 <= i < j < |t|
        ensures InOrder(t[i], t[j])
      {
        assert t[i] in f && t[j] in f;
        OrderFromList(f, t[i], t[j]);
      }
    }
  }
}
