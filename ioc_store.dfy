/**
 * One IOC table and the five operations each router (routes/sha256Routes.js, urlRoutes.js,
 * ipPortRoutes.js) performs on it, as functions from the table before to the reply and the
 * table after. The table is the map from primary key to row plus the next auto-increment value.
 */
module IocStore {
  import opened Wrappers
  import opened Strings
  import opened ErrorHandler
  import opened IocModels

  datatype Table = Table(rows: map<nat, Ioc>, nextId: nat)

  /** Another row than `rec` itself holds `rec`'s `ioc_id` (the column's unique index would reject it). */
  predicate TakenByOther(rows: map<nat, Ioc>, rec: Ioc)
  {
    exists k :: k in rows && k != rec.id && rows[k].ioc_id == rec.ioc_id
  }

  /** No two rows share an `ioc_id`. */
  ghost predicate IocIdsUnique(rows: map<nat, Ioc>)
  {
    forall i, j :: i in rows && j in rows && i != j ==> rows[i].ioc_id != rows[j].ioc_id
  }

  /** Every row is stored under its own id, below the next id. */
  ghost predicate RowsKeyed(t: Table)
  {
    forall id :: id in t.rows ==> id < t.nextId && t.rows[id].id == id
  }

  /** Every row is stored under its own id, below the next id, and passes the schema. */
  ghost predicate RowsValid(kind: Kind, isUrl: string -> bool, t: Table)
  {
    forall id :: id in t.rows ==> id < t.nextId && t.rows[id].id == id && IsValid(kind, isUrl, t.rows[id])
  }

  /** The table's invariant: valid rows under their own ids, and `ioc_id` unique. */
  ghost predicate TableInvariant(kind: Kind, isUrl: string -> bool, t: Table)
  {
    RowsValid(kind, isUrl, t) && IocIdsUnique(t.rows)
  }

  /** What a route answers. */
  datatype IocReply =
    | Created(rec: Ioc)                                             // 201 with the new row
    | Found(rec: Ioc)                                               // 200 with one row
    | Listed(total: nat, page: nat, limit: nat, data: seq<Ioc>)     // 200 with a page
    | Deleted                                                       // 204, no body
    | Error(err: ErrorResponse)

  function Status(r: IocReply): int
  {
    match r
    case Created(_) => 201
    case Found(_) => 200
    case Listed(_, _, _, _) => 200
    case Deleted => 204
    case Error(e) => e.status
  }

  function NotFound(kind: Kind): ErrorResponse
  {
    ErrorResponse(404, "Not Found", NotFoundMessage(kind))
  }

  /** The reply for a row the checks of `cols` reject: every violation message, joined by ", ". */
  function Rejected(kind: Kind, isUrl: string -> bool, rec: Ioc, cols: Columns): ErrorResponse
  {
    Handle(ValidationError(Messages(kind, Violations(kind, isUrl, rec, cols))))
  }

  // ---------------------------------------------------------------- get

  /** GET /:id. */
  function Get(kind: Kind, t: Table, id: nat): (r: IocReply)
    ensures id in t.rows ==> r == Found(t.rows[id])
    ensures id !in t.rows ==> r == Error(NotFound(kind)) && Status(r) == 404
  {
    if id in t.rows then Found(t.rows[id]) else Error(NotFound(kind))
  }

  // ---------------------------------------------------------------- create

  /** POST / once the caller is authorized: `Model.create(req.body)`. */
  function Create(kind: Kind, isUrl: string -> bool, t: Table, p: Payload): (res: (IocReply, Table))
    ensures res.0.Created? <==> IsValid(kind, isUrl, Build(t.nextId, p)) && !TakenByOther(t.rows, Build(t.nextId, p))
    ensures res.0.Created? ==>
      && res.0.rec == Build(t.nextId, p)
      && res.1 == Table(t.rows[t.nextId := res.0.rec], t.nextId + 1)
    ensures !res.0.Created? ==> res.1 == t && res.0.Error?
    ensures !IsValid(kind, isUrl, Build(t.nextId, p)) ==>
      res.0 == Error(Rejected(kind, isUrl, Build(t.nextId, p), AllColumns)) && Status(res.0) == 400
    ensures IsValid(kind, isUrl, Build(t.nextId, p)) && TakenByOther(t.rows, Build(t.nextId, p)) ==>
      Status(res.0) == 409
  {
    var rec := Build(t.nextId, p);
    if !IsValid(kind, isUrl, rec) then
      (Error(Rejected(kind, isUrl, rec, AllColumns)), t)
    else if TakenByOther(t.rows, rec) then
      (Error(Handle(UniqueConstraintError())), t)
    else
      (Created(rec), Table(t.rows[t.nextId := rec], t.nextId + 1))
  }

  // ---------------------------------------------------------------- update

  /**
   * PUT /:id once the caller is authorized: `findByPk`, then `instance.update(req.body)`, which
   * validates only the columns whose value the body changes.
   */
  function Update(kind: Kind, isUrl: string -> bool, t: Table, id: nat, p: Payload): (res: (IocReply, Table))
    ensures id !in t.rows ==> res == (Error(NotFound(kind)), t)
    ensures id in t.rows ==>
      var rec := Patch(t.rows[id], p);
      var cols := ChangedColumns(t.rows[id], rec);
      && (res.0.Found? <==> ValidIn(kind, isUrl, rec, cols) && !TakenByOther(t.rows, rec))
      && (res.0.Found? ==> res.0.rec == rec && res.1 == Table(t.rows[id := rec], t.nextId))
      && (!ValidIn(kind, isUrl, rec, cols) ==> res == (Error(Rejected(kind, isUrl, rec, cols)), t) && Status(res.0) == 400)
      && (ValidIn(kind, isUrl, rec, cols) && TakenByOther(t.rows, rec) ==> res.1 == t && Status(res.0) == 409)
    ensures res.1.rows.Keys == t.rows.Keys && res.1.nextId == t.nextId
  {
    if id !in t.rows then (Error(NotFound(kind)), t)
    else
      var rec := Patch(t.rows[id], p);
      var cols := ChangedColumns(t.rows[id], rec);
      if !ValidIn(kind, isUrl, rec, cols) then (Error(Rejected(kind, isUrl, rec, cols)), t)
      else if TakenByOther(t.rows, rec) then (Error(Handle(UniqueConstraintError())), t)
      else (Found(rec), Table(t.rows[id := rec], t.nextId))
  }

  // ---------------------------------------------------------------- delete

  /** DELETE /:id once the caller is authorized: `findByPk`, then `instance.destroy()`. */
  function Delete(kind: Kind, t: Table, id: nat): (res: (IocReply, Table))
    ensures id !in t.rows ==> res == (Error(NotFound(kind)), t)
    ensures id in t.rows ==> res.0 == Deleted && res.1 == Table(t.rows - {id}, t.nextId)
    ensures id !in res.1.rows && res.1.rows.Keys == t.rows.Keys - {id}
    ensures forall k :: k in res.1.rows ==> res.1.rows[k] == t.rows[k]
    ensures forall k :: TableInvariant(kind, k, t) ==> TableInvariant(kind, k, res.1)
  {
    if id !in t.rows then (Error(NotFound(kind)), t)
    else (Deleted, Table(t.rows - {id}, t.nextId))
  }

  /** Storing `rec` under its own id keeps `ioc_id` unique when no other row holds its `ioc_id`. */
  lemma UniqueAfterPut(rows: map<nat, Ioc>, rec: Ioc)
    requires IocIdsUnique(rows) && !TakenByOther(rows, rec)
    ensures IocIdsUnique(rows[rec.id := rec])
  {
    var rows' := rows[rec.id := rec];
    forall i, j | i in rows' && j in rows' && i != j ensures rows'[i].ioc_id != rows'[j].ioc_id {
      if i != rec.id && j != rec.id {
        assert rows'[i] == rows[i] && rows'[j] == rows[j];
      }
    }
  }

  /** Storing a valid row under its own id, when no other row holds its `ioc_id`, keeps the invariant. */
  lemma PutKeepsInvariant(kind: Kind, isUrl: string -> bool, t: Table, rec: Ioc, nextId: nat)
    requires TableInvariant(kind, isUrl, t)
    requires IsValid(kind, isUrl, rec) && !TakenByOther(t.rows, rec)
    requires rec.id < nextId && t.nextId <= nextId
    ensures TableInvariant(kind, isUrl, Table(t.rows[rec.id := rec], nextId))
  {
    UniqueAfterPut(t.rows, rec);
  }

  /** A create keeps the table invariant, and a successful one adds exactly one row under a fresh id. */
  lemma CreateKeepsInvariant(kind: Kind, isUrl: string -> bool, t: Table, p: Payload)
    requires TableInvariant(kind, isUrl, t)
    ensures var (r, t') := Create(kind, isUrl, t, p);
      && TableInvariant(kind, isUrl, t')
      && (r.Created? ==> t.nextId !in t.rows && |t'.rows| == |t.rows| + 1)
  {
    var (r, t') := Create(kind, isUrl, t, p);
    if r.Created? {
      assert t.nextId !in t.rows;
      PutKeepsInvariant(kind, isUrl, t, r.rec, t.nextId + 1);
    }
  }

  /** An update keeps the table invariant. */
  lemma UpdateKeepsInvariant(kind: Kind, isUrl: string -> bool, t: Table, id: nat, p: Payload)
    requires TableInvariant(kind, isUrl, t)
    ensures TableInvariant(kind, isUrl, Update(kind, isUrl, t, id, p).1)
  {
    var (r, t') := Update(kind, isUrl, t, id, p);
    if r.Found? {
      ChangedColumnsSuffice(kind, isUrl, t.rows[id], r.rec);
      PutKeepsInvariant(kind, isUrl, t, r.rec, t.nextId);
    }
  }

  /** A created row reads back unchanged under its new id. */
  lemma CreateThenGet(kind: Kind, isUrl: string -> bool, t: Table, p: Payload)
    requires Create(kind, isUrl, t, p).0.Created?
    ensures var (r, t') := Create(kind, isUrl, t, p);
      Get(kind, t', r.rec.id) == Found(Build(t.nextId, p))
  {
  }

  /** After a delete, reading or deleting the same id again answers 404. */
  lemma DeleteThenGet(kind: Kind, t: Table, id: nat)
    ensures var t' := Delete(kind, t, id).1;
      Get(kind, t', id) == Error(NotFound(kind)) && Delete(kind, t', id).0 == Error(NotFound(kind))
  {
  }

  // ---------------------------------------------------------------- list

  /** A page number as the router uses it: at least 1. */
  type PageNo = n: nat | n >= 1 witness 1

  /**
   * The filter parameters of GET /. An absent parameter is None. `threat_type`, `malware` and
   * `reporter` are also ignored when empty, as JavaScript treats "" as false; `min_confidence`
   * is the value `parseInt` produced.
   */
  datatype Filter = Filter(
    threat_type: Option<string>,
    malware: Option<string>,
    reporter: Option<string>,
    min_confidence: Option<int>)

  /** The query string of GET /: paging parameters and filters. */
  datatype Query = Query(page: Option<PageNo>, limit: Option<nat>, filter: Filter)

  function PageOf(q: Query): PageNo { q.page.GetOr(1) }
  function LimitOf(q: Query): nat { q.limit.GetOr(50) }

  /** `(page - 1) * limit`. */
  function Offset(q: Query): (r: nat)
    ensures r == (PageOf(q) - 1) * LimitOf(q)
    ensures q.page.None? ==> r == 0
    ensures q.page.Some? && q.limit.None? ==> r == (q.page.value - 1) * 50
  {
    (PageOf(q) - 1) * LimitOf(q)
  }

  /** A text filter that is present and non-empty. */
  predicate Active(f: Option<string>)
  {
    f.Some? && f.value != []
  }

  /** The `where` object the router builds, as a condition on one row. NULL columns match nothing. */
  predicate Matches(f: Filter, r: Ioc)
  {
    && (Active(f.threat_type) ==> r.threat_type == Some(f.threat_type.value))
    && (Active(f.malware) ==> r.malware.Some? && Contains(r.malware.value, f.malware.value))
    && (Active(f.reporter) ==> r.reporter == Some(f.reporter.value))
    && (f.min_confidence.Some? ==> r.confidence_level.Some? && r.confidence_level.value >= f.min_confidence.value)
  }

  /** The ids below `n` of the rows matching `q`, in ascending order. */
  function SelectIds(rows: map<nat, Ioc>, f: Filter, n: nat): (ids: seq<nat>)
    ensures forall k :: k in ids <==> k < n && k in rows && Matches(f, rows[k])
    ensures forall i, j :: 0 <= i < j < |ids| ==> ids[i] < ids[j]
  {
    if n == 0 then []
    else
      var prev := SelectIds(rows, f, n - 1);
      assert forall i :: 0 <= i < |prev| ==> prev[i] in prev;
      if n - 1 in rows && Matches(f, rows[n - 1]) then prev + [n - 1] else prev
  }

  /** The rows stored under `ids`, in the same order. */
  function Fetch(rows: map<nat, Ioc>, ids: seq<nat>): (r: seq<Ioc>)
    requires forall k :: k in ids ==> k in rows
    ensures |r| == |ids| && forall i :: 0 <= i < |ids| ==> r[i] == rows[ids[i]]
  {
    if ids == [] then [] else [rows[ids[0]]] + Fetch(rows, ids[1..])
  }

  /** Row `a` comes strictly before row `b` under `ORDER BY first_seen_utc DESC`; NULL sorts last. */
  predicate Newer(a: Ioc, b: Ioc)
  {
    a.first_seen_utc.Some? && (b.first_seen_utc.None? || a.first_seen_utc.value > b.first_seen_utc.value)
  }

  predicate SortedNewestFirst(s: seq<Ioc>)
  {
    forall i, j :: 0 <= i < j < |s| ==> !Newer(s[j], s[i])
  }

  /** Inserts `x` before the first row that is not newer than it, so it precedes the rows it ties with. */
  function Insert(x: Ioc, s: seq<Ioc>): (r: seq<Ioc>)
    requires SortedNewestFirst(s)
    ensures SortedNewestFirst(r)
    ensures multiset(r) == multiset(s) + multiset{x}
  {
    if s == [] then [x]
    else if !Newer(s[0], x) then
      assert forall j :: 0 <= j < |s| ==> !Newer(s[j], s[0]);
      [x] + s
    else
      var tail := Insert(x, s[1..]);
      InsertHead(x, s, tail);
      assert s == [s[0]] + s[1..];
      [s[0]] + tail
  }

  /** Every row of `tail` (the rest of `s` with `x` inserted) may follow `s[0]`. */
  lemma InsertHead(x: Ioc, s: seq<Ioc>, tail: seq<Ioc>)
    requires s != [] && SortedNewestFirst(s) && !Newer(x, s[0])
    requires multiset(tail) == multiset(s[1..]) + multiset{x}
    ensures forall j :: 0 <= j < |tail| ==> !Newer(tail[j], s[0])
  {
    forall j | 0 <= j < |tail| ensures !Newer(tail[j], s[0]) {
      assert tail[j] in multiset(tail);
      if tail[j] != x {
        assert tail[j] in multiset(s[1..]);
        var k :| 0 <= k < |s[1..]| && s[1..][k] == tail[j];
        assert s[k + 1] == tail[j];
      }
    }
  }

  /** A stable sort by `first_seen_utc`, newest first: ties keep their order in `s`. */
  function SortNewestFirst(s: seq<Ioc>): (r: seq<Ioc>)
    ensures SortedNewestFirst(r)
    ensures multiset(r) == multiset(s)
  {
    if s == [] then []
    else
      assert s == [s[0]] + s[1..];
      Insert(s[0], SortNewestFirst(s[1..]))
  }

  /** The rows of `s` seen first at `d`, in their order in `s`. */
  function SeenAt(s: seq<Ioc>, d: Option<int>): seq<Ioc>
  {
    if s == [] then [] else (if s[0].first_seen_utc == d then [s[0]] else []) + SeenAt(s[1..], d)
  }

  /** Inserting `x` puts it ahead of every row it ties with. */
  lemma {:induction false} InsertSeenAt(x: Ioc, s: seq<Ioc>, d: Option<int>)
    requires SortedNewestFirst(s)
    ensures SeenAt(Insert(x, s), d) == (if x.first_seen_utc == d then [x] else []) + SeenAt(s, d)
  {
    if s == [] || !Newer(s[0], x) {
      InsertFront(x, s);
      SeenAtCons(x, s, d);
    } else {
      var tail := InsertBehind(x, s);
      InsertSeenAt(x, s[1..], d);
      SeenAtPast(x, s, tail, d);
    }
  }

  /** When `s` has no row newer than `x` at its head, `x` goes first. */
  lemma InsertFront(x: Ioc, s: seq<Ioc>)
    requires SortedNewestFirst(s) && (s == [] || !Newer(s[0], x))
    ensures Insert(x, s) == [x] + s
  {
  }

  /** When `s[0]` is newer than `x`, `x` goes into the rest of `s`. */
  lemma InsertBehind(x: Ioc, s: seq<Ioc>) returns (tail: seq<Ioc>)
    requires SortedNewestFirst(s) && s != [] && Newer(s[0], x)
    ensures SortedNewestFirst(s[1..]) && tail == Insert(x, s[1..])
    ensures Insert(x, s) == [s[0]] + tail
  {
    tail := Insert(x, s[1..]);
  }

  /** `s[0]`, newer than `x`, stays ahead of `x` and of the rows of `s[1..]`. */
  lemma SeenAtPast(x: Ioc, s: seq<Ioc>, tail: seq<Ioc>, d: Option<int>)
    requires s != [] && Newer(s[0], x)
    requires SeenAt(tail, d) == (if x.first_seen_utc == d then [x] else []) + SeenAt(s[1..], d)
    ensures SeenAt([s[0]] + tail, d) == (if x.first_seen_utc == d then [x] else []) + SeenAt(s, d)
  {
    assert s == [s[0]] + s[1..];
    SeenAtCons(s[0], tail, d);
    SeenAtCons(s[0], s[1..], d);
    if x.first_seen_utc == d {
      assert s[0].first_seen_utc != d;
    }
  }

  lemma SeenAtCons(y: Ioc, t: seq<Ioc>, d: Option<int>)
    ensures SeenAt([y] + t, d) == (if y.first_seen_utc == d then [y] else []) + SeenAt(t, d)
  {
    assert ([y] + t)[1..] == t;
  }

  /** The sort is stable: rows with the same `first_seen_utc` keep their relative order. */
  lemma {:induction false} SortKeepsTies(s: seq<Ioc>, d: Option<int>)
    ensures SeenAt(SortNewestFirst(s), d) == SeenAt(s, d)
  {
    if s != [] {
      SortKeepsTies(s[1..], d);
      InsertSeenAt(s[0], SortNewestFirst(s[1..]), d);
    }
  }

  /** All rows matching `q`, in the order the listing returns them. */
  function Matching(t: Table, f: Filter): seq<Ioc>
  {
    SortNewestFirst(Fetch(t.rows, SelectIds(t.rows, f, t.nextId)))
  }

  /** Every listed row is a stored row that satisfies every supplied filter, and the list is sorted. */
  lemma MatchingRows(t: Table, f: Filter)
    ensures SortedNewestFirst(Matching(t, f))
    ensures forall x :: x in Matching(t, f) ==> Matches(f, x) && x in t.rows.Values
  {
    var ids := SelectIds(t.rows, f, t.nextId);
    var fetched := Fetch(t.rows, ids);
    forall x | x in Matching(t, f) ensures Matches(f, x) && x in t.rows.Values {
      assert x in multiset(Matching(t, f));
      assert x in multiset(fetched);
      var i :| 0 <= i < |fetched| && fetched[i] == x;
      assert ids[i] in ids;
    }
  }

  /** A strictly increasing sequence of ids: its tail is one too, and its first id does not recur. */
  lemma IncreasingTail(ids: seq<nat>)
    requires ids != [] && forall i, j :: 0 <= i < j < |ids| ==> ids[i] < ids[j]
    ensures forall i, j :: 0 <= i < j < |ids[1..]| ==> ids[1..][i] < ids[1..][j]
    ensures ids[0] !in ids[1..]
    ensures forall k :: k in ids <==> k == ids[0] || k in ids[1..]
  {
    assert ids == [ids[0]] + ids[1..];
    forall i | 0 <= i < |ids[1..]| ensures ids[1..][i] != ids[0] {
      assert ids[0] < ids[i + 1];
    }
  }

  /** The rows of `ids`, counted: the first id's row and the rows of the rest. */
  lemma FetchCount(rows: map<nat, Ioc>, ids: seq<nat>, x: Ioc)
    requires ids != [] && forall k :: k in ids ==> k in rows
    ensures multiset(Fetch(rows, ids))[x] == (if rows[ids[0]] == x then 1 else 0) + multiset(Fetch(rows, ids[1..]))[x]
  {
    assert Fetch(rows, ids) == [rows[ids[0]]] + Fetch(rows, ids[1..]);
  }

  /** Fetching distinct ids, each stored under itself, yields each row at most once. */
  lemma {:induction false} FetchOnce(rows: map<nat, Ioc>, ids: seq<nat>, x: Ioc)
    requires forall i, j :: 0 <= i < j < |ids| ==> ids[i] < ids[j]
    requires forall k :: k in ids ==> k in rows && rows[k].id == k
    ensures multiset(Fetch(rows, ids))[x] == if x.id in ids && rows[x.id] == x then 1 else 0
  {
    if ids != [] {
      IncreasingTail(ids);
      FetchOnce(rows, ids[1..], x);
      FetchCount(rows, ids, x);
      if rows[ids[0]] == x {
        assert x.id == ids[0];
      }
    }
  }

  /**
   * Over a table that keeps its invariant, the match list holds every stored row that satisfies
   * the filters exactly once, and nothing else.
   */
  lemma ListedExactlyOnce(t: Table, f: Filter, x: Ioc)
    requires RowsKeyed(t)
    ensures multiset(Matching(t, f))[x] == if x.id in t.rows && t.rows[x.id] == x && Matches(f, x) then 1 else 0
  {
    var ids := SelectIds(t.rows, f, t.nextId);
    FetchOnce(t.rows, ids, x);
  }

  /** `LIMIT limit OFFSET offset` applied to `s`. */
  function Window<T>(s: seq<T>, offset: nat, limit: nat): (r: seq<T>)
    ensures |r| <= limit
    ensures |r| == if offset >= |s| then 0 else if offset + limit <= |s| then limit else |s| - offset
    ensures forall i :: 0 <= i < |r| ==> r[i] == s[offset + i]
  {
    if offset >= |s| then [] else if offset + limit <= |s| then s[offset..offset + limit] else s[offset..]
  }

  /** A window of a sorted list is sorted, and holds only rows of the list. */
  lemma WindowOfSorted(s: seq<Ioc>, offset: nat, limit: nat)
    requires SortedNewestFirst(s)
    ensures SortedNewestFirst(Window(s, offset, limit))
    ensures forall x :: x in Window(s, offset, limit) ==> x in s
  {
    var w := Window(s, offset, limit);
    forall x | x in w ensures x in s {
      var i :| 0 <= i < |w| && w[i] == x;
      assert s[offset + i] == x;
    }
  }

  /** GET /: `findAndCountAll` with the filters, the ordering, the limit and the offset. */
  function List(t: Table, q: Query): (r: IocReply)
    ensures r.Listed?
    ensures r.total == |Matching(t, q.filter)| && r.page == PageOf(q) && r.limit == LimitOf(q)
    ensures r.data == Window(Matching(t, q.filter), Offset(q), LimitOf(q))
    ensures |r.data| <= LimitOf(q) && SortedNewestFirst(r.data)
    ensures forall x :: x in r.data ==> Matches(q.filter, x) && x in t.rows.Values
  {
    var all := Matching(t, q.filter);
    MatchingRows(t, q.filter);
    var data := Window(all, Offset(q), LimitOf(q));
    WindowOfSorted(all, Offset(q), LimitOf(q));
    Listed(|all|, PageOf(q), LimitOf(q), data)
  }

  /** The total counts every match, whatever page and limit were asked for. */
  lemma TotalIgnoresPaging(t: Table, q: Query, page: Option<PageNo>, limit: Option<nat>)
    ensures List(t, q).total == List(t, Query(page, limit, q.filter)).total
  {
  }

  /** Pages 1..n of `s` at `limit` rows each, concatenated. */
  function Pages<T>(s: seq<T>, n: nat, limit: nat): seq<T>
  {
    if n == 0 then [] else Pages(s, n - 1, limit) + Window(s, (n - 1) * limit, limit)
  }

  /** The first `lo` rows followed by the window at `lo` are the first `lo + limit` rows. */
  lemma PrefixThenWindow<T>(s: seq<T>, lo: nat, limit: nat)
    ensures s[..if lo <= |s| then lo else |s|] + Window(s, lo, limit)
         == s[..if lo + limit <= |s| then lo + limit else |s|]
  {
    var a := if lo <= |s| then lo else |s|;
    var b := if lo + limit <= |s| then lo + limit else |s|;
    assert Window(s, lo, limit) == s[a..b];
    assert s[..a] + s[a..b] == s[..b];
  }

  /** The first n pages together are exactly the first n * limit rows. */
  lemma {:induction false} PagesArePrefix<T>(s: seq<T>, n: nat, limit: nat)
    ensures Pages(s, n, limit) == s[..if n * limit <= |s| then n * limit else |s|]
  {
    if n > 0 {
      PagesArePrefix(s, n - 1, limit);
      assert (n - 1) * limit + limit == n * limit;
      PrefixThenWindow(s, (n - 1) * limit, limit);
    }
  }

  /**
   * Paging through a listing reproduces it: with a positive limit, pages 1 to
   * ceil(|s| / limit) concatenated are the whole sorted match list, each row once.
   */
  lemma {:induction false} PagesCoverAll<T>(s: seq<T>, limit: nat)
    requires limit > 0
    ensures Pages(s, (|s| + limit - 1) / limit, limit) == s
  {
    var n := (|s| + limit - 1) / limit;
    assert n * limit >= |s| by {
      var m := (|s| + limit - 1) % limit;
      assert n * limit + m == |s| + limit - 1;
    }
    PagesArePrefix(s, n, limit);
  }

  /** Page `p` of a listing is the slice of the match list starting at (p - 1) * limit. */
  lemma {:induction false} ListIsPageOfMatches(t: Table, q: Query, p: PageNo)
    ensures var r := List(t, Query(Some(p), q.limit, q.filter));
      Pages(Matching(t, q.filter), p, LimitOf(q)) == Pages(Matching(t, q.filter), p - 1, LimitOf(q)) + r.data
  {
  }
}
