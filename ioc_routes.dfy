/**
 * The three IOC routers (routes/sha256Routes.js, routes/urlRoutes.js, routes/ipPortRoutes.js):
 * one class, instantiated once per Kind, holding its table and answering the five routes. The
 * mutating routes run `authenticate` and `authorize(...)` first; then the table changes in place.
 */
module IocRoutes {
  import opened ErrorHandler
  import opened Auth
  import opened IocModels
  import opened IocStore

  class IocRouter {
    const kind: Kind
    /** validator.js's `isURL`, consulted only by the URL table. */
    const isUrl: string -> bool
    var rows: map<nat, Ioc>
    var nextId: nat

    function State(): Table
      reads this
    {
      Table(rows, nextId)
    }

    ghost predicate Valid()
      reads this
    {
      TableInvariant(kind, isUrl, State())
    }

    /** An empty table whose auto-increment starts at 1. */
    constructor (kind: Kind, isUrl: string -> bool)
      ensures Valid() && this.kind == kind && this.isUrl == isUrl
      ensures rows == map[] && nextId == 1
    {
      this.kind := kind;
      this.isUrl := isUrl;
      rows := map[];
      nextId := 1;
    }

    /** GET /: a read-only query. */
    method List(q: Query) returns (r: IocReply)
      ensures r == IocStore.List(State(), q)
      ensures r.total == |Matching(State(), q.filter)| && |r.data| <= LimitOf(q)
      ensures forall x :: x in r.data ==> Matches(q.filter, x) && x in rows.Values
    {
      r := IocStore.List(State(), q);
    }

    /** GET /:id: a read-only lookup. */
    method Get(id: nat) returns (r: IocReply)
      ensures id in rows ==> r == Found(rows[id])
      ensures id !in rows ==> r == Error(NotFound(kind))
    {
      if id in rows {
        r := Found(rows[id]);
      } else {
        r := Error(NotFound(kind));
      }
    }

    /** POST /: `authenticate` and `authorize('researcher', 'admin')`, then the handler. */
    method Post(caller: Caller, p: Payload) returns (r: IocReply)
      requires Valid()
      modifies this
      ensures Valid()
      ensures Guard(caller, WriteRoles).Reject? ==>
        r == Error(Guard(caller, WriteRoles).err) && State() == old(State())
      ensures Guard(caller, WriteRoles).Continue? ==> (r, State()) == Create(kind, isUrl, old(State()), p)
    {
      var gate := Guard(caller, WriteRoles);
      if gate.Reject? {
        return Error(gate.err);
      }
      r := Insert(p);
    }

    /** The POST handler: validate the new row, then insert it under a fresh id. */
    method Insert(p: Payload) returns (r: IocReply)
      requires Valid()
      modifies this
      ensures Valid()
      ensures (r, State()) == Create(kind, isUrl, old(State()), p)
    {
      ghost var res := Create(kind, isUrl, State(), p);
      CreateKeepsInvariant(kind, isUrl, State(), p);
      var rec := Build(nextId, p);
      if !IsValid(kind, isUrl, rec) {
        return Error(Rejected(kind, isUrl, rec, AllColumns));
      }
      if TakenByOther(rows, rec) {
        return Error(Handle(UniqueConstraintError()));
      }
      rows := rows[nextId := rec];
      nextId := nextId + 1;
      r := Created(rec);
      assert (r, State()) == res;
    }

    /** PUT /:id: `authenticate` and `authorize('researcher', 'admin')`, then the handler. */
    method Put(caller: Caller, id: nat, p: Payload) returns (r: IocReply)
      requires Valid()
      modifies this
      ensures Valid()
      ensures Guard(caller, WriteRoles).Reject? ==>
        r == Error(Guard(caller, WriteRoles).err) && State() == old(State())
      ensures Guard(caller, WriteRoles).Continue? ==> (r, State()) == Update(kind, isUrl, old(State()), id, p)
    {
      var gate := Guard(caller, WriteRoles);
      if gate.Reject? {
        return Error(gate.err);
      }
      r := Patch(id, p);
    }

    /** The PUT handler: 404 when absent, else patch the row and validate the columns it changes. */
    method Patch(id: nat, p: Payload) returns (r: IocReply)
      requires Valid()
      modifies this
      ensures Valid()
      ensures (r, State()) == Update(kind, isUrl, old(State()), id, p)
    {
      if id !in rows {
        return Error(NotFound(kind));
      }
      ghost var res := Update(kind, isUrl, State(), id, p);
      UpdateKeepsInvariant(kind, isUrl, State(), id, p);
      var rec := IocModels.Patch(rows[id], p);
      var cols := ChangedColumns(rows[id], rec);
      if !ValidIn(kind, isUrl, rec, cols) {
        return Error(Rejected(kind, isUrl, rec, cols));
      }
      if TakenByOther(rows, rec) {
        return Error(Handle(UniqueConstraintError()));
      }
      rows := rows[id := rec];
      r := Found(rec);
      assert (r, State()) == res;
    }

    /** DELETE /:id: `authenticate` and `authorize('admin')`, then the handler. */
    method Delete(caller: Caller, id: nat) returns (r: IocReply)
      requires Valid()
      modifies this
      ensures Valid()
      ensures Guard(caller, DeleteRoles).Reject? ==>
        r == Error(Guard(caller, DeleteRoles).err) && State() == old(State())
      ensures Guard(caller, DeleteRoles).Continue? ==> (r, State()) == IocStore.Delete(kind, old(State()), id)
    {
      var gate := Guard(caller, DeleteRoles);
      if gate.Reject? {
        return Error(gate.err);
      }
      r := Destroy(id);
    }

    /** The DELETE handler: 404 when absent, else remove the row for good. */
    method Destroy(id: nat) returns (r: IocReply)
      requires Valid()
      modifies this
      ensures Valid()
      ensures (r, State()) == IocStore.Delete(kind, old(State()), id)
    {
      if id !in rows {
        return Error(NotFound(kind));
      }
      rows := rows - {id};
      r := Deleted;
    }
  }

  /** The write guard refuses an analyst with 403 and a request without a token with 401, and admits a researcher. */
  lemma WriteGuard(analyst: Caller, researcher: Caller, anonymous: Caller)
    requires Authenticate(analyst).Continue? && Authenticate(analyst).user.role == Analyst
    requires Authenticate(researcher).Continue? && Authenticate(researcher).user.role == Researcher
    requires anonymous.authorization.None?
    ensures Guard(analyst, WriteRoles).Reject? && Guard(analyst, WriteRoles).err.status == 403
    ensures Guard(anonymous, WriteRoles).Reject? && Guard(anonymous, WriteRoles).err.status == 401
    ensures Guard(researcher, WriteRoles).Continue?
  {
    assert Analyst !in WriteRoles;
    assert Researcher in WriteRoles;
  }

  /**
   * The scenario of the authorization tests: an analyst's POST is refused with 403 and leaves
   * the table alone, a researcher's POST of a valid new row answers 201, an anonymous POST
   * answers 401.
   */
  method RoleScenario(router: IocRouter, analyst: Caller, researcher: Caller, anonymous: Caller, p: Payload)
    returns (r1: IocReply, r2: IocReply, r3: IocReply)
    requires router.Valid()
    requires Authenticate(analyst).Continue? && Authenticate(analyst).user.role == Analyst
    requires Authenticate(researcher).Continue? && Authenticate(researcher).user.role == Researcher
    requires anonymous.authorization.None?
    modifies router
    ensures router.Valid()
    ensures Status(r1) == 403 && Status(r3) == 401
    ensures var rec := Build(old(router.nextId), p);
      IsValid(router.kind, router.isUrl, rec) && !TakenByOther(old(router.rows), rec) ==>
        r2 == Created(rec) && router.rows == old(router.rows)[rec.id := rec]
    ensures !r2.Created? ==> router.State() == old(router.State())
  {
    var before := router.State();
    WriteGuard(analyst, researcher, anonymous);
    r1 := router.Post(analyst, p);
    assert router.State() == before;
    r3 := router.Post(anonymous, p);
    assert router.State() == before;
    r2 := router.Post(researcher, p);
  }
}
