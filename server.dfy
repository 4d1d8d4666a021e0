/**
 * The in-memory user store of the Users API (server.js).
 *
 * The service keeps one module-level table of `{id, name, password}`
 * records.  The HTTP handlers read it (GET /users), append to it
 * (POST /users), overwrite fields of one record (PUT /users/:id) and
 * replace it by a filtered copy (DELETE /users/:id).  Routing, JSON
 * parsing and response writing are not modelled; each handler's outcome
 * is a return value.
 */
module Server {
  import opened Wrappers

  // ---------------------------------------------------------------------
  // Data model
  // ---------------------------------------------------------------------

  /**
   * One stored record.  `name` and `password` are exactly what the request
   * body carried: `None` when the field was missing (JavaScript's
   * `undefined`), `Some(s)` otherwise, possibly the empty string.
   */
  datatype User = User(id: int, name: Option<string>, password: Option<string>)

  /**
   * The path parameter after `parseInt`: a number, or `NaN` when the text
   * is not numeric.  `NaN` is strictly unequal to every number, so it
   * matches no record.
   */
  datatype PathId = Num(n: int) | NaN

  /** What the PUT handler reports: 404 "User not found!", or the record. */
  datatype UpdateOutcome = NotFound | Updated(user: User)

  /** The record `u` is selected by the path id (`b.id === userId`). */
  predicate Matches(u: User, id: PathId) {
    id.Num? && u.id == id.n
  }

  /** No record of `s` is selected by `id`. */
  predicate NoMatch(s: seq<User>, id: PathId) {
    forall k :: 0 <= k < |s| ==> !Matches(s[k], id)
  }

  /**
   * JavaScript truthiness restricted to an optional string body field:
   * `undefined` and `""` are falsy, every other string is truthy.
   */
  predicate Truthy(v: Option<string>) {
    v.Some? && v.value != ""
  }

  /** `supplied || current` on optional strings. */
  function OrElse(supplied: Option<string>, current: Option<string>): (r: Option<string>) {
    if Truthy(supplied) then supplied else current
  }

  /** All ids in the store are pairwise distinct. */
  predicate UniqueIds(s: seq<User>) {
    forall i, j :: 0 <= i < j < |s| ==> s[i].id != s[j].id
  }

  /** Every id is at least 1. */
  predicate PositiveIds(s: seq<User>) {
    forall k :: 0 <= k < |s| ==> s[k].id >= 1
  }

  /**
   * The ids are 1, 2, ..., |s| in order: the shape of the table as long as
   * only creations and updates have happened since the seed.
   */
  predicate Dense(s: seq<User>) {
    forall k :: 0 <= k < |s| ==> s[k].id == k + 1
  }

  /** The two records the process starts with. */
  function Seed(): (s: seq<User>) {
    [ User(1, Some("João"), Some("JJ1804C")),
      User(2, Some("Clair"), Some("CC0710L")) ]
  }

  // ---------------------------------------------------------------------
  // Specification functions of the four operations
  // ---------------------------------------------------------------------

  /** The table after POST /users: one new record whose id is the old length plus one. */
  function AfterCreate(s: seq<User>, name: Option<string>, password: Option<string>): (r: seq<User>) {
    s + [User(|s| + 1, name, password)]
  }

  /** The position `Array.prototype.find` stops at: the first record selected by `id`. */
  function IndexOfFirst(s: seq<User>, id: PathId): (r: Option<nat>)
    ensures r.Some? ==> r.value < |s| && Matches(s[r.value], id)
    ensures r.Some? ==> forall j :: 0 <= j < r.value ==> !Matches(s[j], id)
    ensures r.None? <==> NoMatch(s, id)
  {
    if s == [] then None
    else if Matches(s[0], id) then Some(0)
    else match IndexOfFirst(s[1..], id)
      case None => None
      case Some(k) => Some(k + 1)
  }

  /** A record after the two field assignments of the PUT handler. */
  function Patch(u: User, name: Option<string>, password: Option<string>): (r: User) {
    u.(name := OrElse(name, u.name), password := OrElse(password, u.password))
  }

  /**
   * What PUT /users/:id reports and the table it leaves behind.
   */
  function ApplyUpdate(s: seq<User>, id: PathId, name: Option<string>, password: Option<string>)
    : (r: (UpdateOutcome, seq<User>))
    ensures r.0.NotFound? <==> NoMatch(s, id)
    ensures r.0.NotFound? ==> r.1 == s
    ensures |r.1| == |s|
    ensures forall k :: 0 <= k < |s| ==> r.1[k].id == s[k].id
    ensures forall k :: 0 <= k < |s| && IndexOfFirst(s, id) != Some(k) ==> r.1[k] == s[k]
    ensures r.0.Updated? ==>
              IndexOfFirst(s, id).Some? &&
              var i := IndexOfFirst(s, id).value;
              r.0.user == r.1[i] &&
              (Truthy(name) ==> r.1[i].name == name) &&
              (!Truthy(name) ==> r.1[i].name == s[i].name) &&
              (Truthy(password) ==> r.1[i].password == password) &&
              (!Truthy(password) ==> r.1[i].password == s[i].password)
  {
    match IndexOfFirst(s, id)
    case None => (NotFound, s)
    case Some(i) =>
      var u := Patch(s[i], name, password);
      (Updated(u), s[i := u])
  }

  /** The table after DELETE /users/:id: `users.filter(b => b.id !== userId)`. */
  function WithoutId(s: seq<User>, id: PathId): (r: seq<User>)
    ensures |r| <= |s|
    ensures NoMatch(r, id)
    ensures forall u :: u in r <==> u in s && !Matches(u, id)
  {
    if s == [] then []
    else if Matches(s[0], id) then WithoutId(s[1..], id)
    else [s[0]] + WithoutId(s[1..], id)
  }

  // ---------------------------------------------------------------------
  // The store itself
  // ---------------------------------------------------------------------

  /** The module-level `users` table and the handlers' effect on it. */
  class UserStore {
    var users: seq<User>

    /**
     * The ids the table holds are positive.  This is the only invariant on
     * ids that every operation keeps: distinctness and the numbering 1..n
     * are both lost after a delete (see `CreateAfterDeleteCollides`).
     */
    ghost predicate Valid()
      reads this
    {
      PositiveIds(users)
    }

    /** The table as the process starts: João (id 1), then Clair (id 2). */
    constructor ()
      ensures Valid()
      ensures users == Seed()
    {
      users := Seed();
    }

    /** GET /users: the whole table, in store order. */
    method List() returns (r: seq<User>)
      ensures r == users
    {
      r := users;
    }

    /** POST /users: append a record numbered by the current length; no validation. */
    method Create(name: Option<string>, password: Option<string>) returns (created: User)
      requires Valid()
      modifies this
      ensures Valid()
      ensures created == User(|old(users)| + 1, name, password)
      ensures users == AfterCreate(old(users), name, password)
    {
      created := User(|users| + 1, name, password);
      users := users + [created];
    }

    /** The linear scan of `users.find`: the index of the first record selected by `id`. */
    method Find(id: PathId) returns (k: Option<nat>)
      ensures k == IndexOfFirst(users, id)
    {
      var i := 0;
      while i < |users|
        invariant 0 <= i <= |users|
        invariant forall j :: 0 <= j < i ==> !Matches(users[j], id)
      {
        if Matches(users[i], id) {
          return Some(i);
        }
        i := i + 1;
      }
      return None;
    }

    /**
     * PUT /users/:id: overwrite `name` and then `password` of the first
     * matching record, each only when the supplied value is truthy.
     */
    method Update(id: PathId, name: Option<string>, password: Option<string>) returns (r: UpdateOutcome)
      requires Valid()
      modifies this
      ensures Valid()
      ensures (r, users) == ApplyUpdate(old(users), id, name, password)
    {
      var found := Find(id);
      if found.None? {
        return NotFound;
      }
      var i := found.value;
      var user := users[i];
      user := user.(name := OrElse(name, user.name));
      user := user.(password := OrElse(password, user.password));
      users := users[i := user];
      r := Updated(user);
    }

    /** DELETE /users/:id: keep every record not selected by `id`; never fails. */
    method Delete(id: PathId)
      requires Valid()
      modifies this
      ensures Valid()
      ensures users == WithoutId(old(users), id)
    {
      users := WithoutId(users, id);
    }
  }

  // ---------------------------------------------------------------------
  // Properties of delete
  // ---------------------------------------------------------------------

  /** Filtering distributes over concatenation, so relative order is kept. */
  lemma {:induction false} WithoutIdAppend(a: seq<User>, b: seq<User>, id: PathId)
    ensures WithoutId(a + b, id) == WithoutId(a, id) + WithoutId(b, id)
  {
    if a == [] {
      assert a + b == b;
    } else {
      assert (a + b)[1..] == a[1..] + b;
      WithoutIdAppend(a[1..], b, id);
    }
  }

  /** A delete leaves the table unchanged exactly when no record carries the id. */
  lemma {:induction false} WithoutIdUnchangedIff(s: seq<User>, id: PathId)
    ensures WithoutId(s, id) == s <==> NoMatch(s, id)
  {
    if s != [] {
      WithoutIdUnchangedIff(s[1..], id);
      if WithoutId(s, id) == s {
        assert s[0] in WithoutId(s, id);
      }
    }
  }

  /** Deleting never introduces a duplicate id. */
  lemma {:induction false} WithoutIdKeepsUnique(s: seq<User>, id: PathId)
    requires UniqueIds(s)
    ensures UniqueIds(WithoutId(s, id))
  {
    if s != [] {
      assert UniqueIds(s[1..]);
      WithoutIdKeepsUnique(s[1..], id);
      if !Matches(s[0], id) {
        var t := WithoutId(s[1..], id);
        forall j | 0 <= j < |t| ensures s[0].id != t[j].id {
          assert t[j] in s[1..];
        }
        assert UniqueIds([s[0]] + t);
      }
    }
  }

  // ---------------------------------------------------------------------
  // Ids over time
  // ---------------------------------------------------------------------

  /** One request that changes the table. */
  datatype Request =
    | CreateReq(name: Option<string>, password: Option<string>)
    | UpdateReq(id: PathId, name: Option<string>, password: Option<string>)
    | DeleteReq(id: PathId)

  /** The table after one request. */
  function Step(s: seq<User>, q: Request): (r: seq<User>) {
    match q
    case CreateReq(name, password) => AfterCreate(s, name, password)
    case UpdateReq(id, name, password) => ApplyUpdate(s, id, name, password).1
    case DeleteReq(id) => WithoutId(s, id)
  }

  /** The table after a run of requests, each handled to completion in turn. */
  function Replay(s: seq<User>, qs: seq<Request>): (r: seq<User>)
    decreases |qs|
  {
    if qs == [] then s else Replay(Step(s, qs[0]), qs[1..])
  }

  predicate NoDeletes(qs: seq<Request>) {
    forall k :: 0 <= k < |qs| ==> !qs[k].DeleteReq?
  }

  /** Without a delete, ids stay 1..n in order, hence unique. */
  lemma {:induction false} DenseWithoutDeletes(s: seq<User>, qs: seq<Request>)
    requires Dense(s)
    requires NoDeletes(qs)
    ensures Dense(Replay(s, qs))
    ensures UniqueIds(Replay(s, qs))
    decreases |qs|
  {
    if qs == [] {
    } else {
      var t := Step(s, qs[0]);
      assert Dense(t);
      assert NoDeletes(qs[1..]);
      DenseWithoutDeletes(t, qs[1..]);
    }
  }

  /**
   * Create numbers the new record by the current length, so on a table
   * with distinct ids it keeps them distinct exactly when no existing
   * record already has that number.
   */
  lemma CreateKeepsUniqueIff(s: seq<User>, name: Option<string>, password: Option<string>)
    requires UniqueIds(s)
    ensures UniqueIds(AfterCreate(s, name, password)) <==>
            forall k :: 0 <= k < |s| ==> s[k].id != |s| + 1
  {
    var t := AfterCreate(s, name, password);
    if UniqueIds(t) {
      forall k | 0 <= k < |s| ensures s[k].id != |s| + 1 {
        assert t[k] == s[k] && t[|s|].id == |s| + 1;
      }
    }
  }

  /**
   * Ids are not unique over time: on a table numbered 1..n, deleting any
   * record but the last and then creating one gives the new record the
   * id n, which the old last record still carries.
   */
  lemma CreateAfterDeleteCollides(s: seq<User>, d: int, name: Option<string>, password: Option<string>)
    requires Dense(s)
    requires 1 <= d < |s|
    ensures var t := AfterCreate(WithoutId(s, Num(d)), name, password);
            |t| == |s| &&
            t[|s| - 2] == s[|s| - 1] &&
            t[|s| - 2].id == |s| && t[|s| - 1].id == |s| &&
            !UniqueIds(t)
  {
    var n := |s|;
    DenseDeleteInner(s, d);
    var kept := WithoutId(s, Num(d));
    assert |kept| == n - 1 && kept[n - 2] == s[n - 1];
    var t := AfterCreate(kept, name, password);
    assert t[n - 2] == s[n - 1] && t[n - 1].id == n;
  }

  /** On a table numbered 1..n, deleting id d < n drops position d - 1 only. */
  lemma DenseDeleteInner(s: seq<User>, d: int)
    requires Dense(s)
    requires 1 <= d < |s|
    ensures WithoutId(s, Num(d)) == s[..d - 1] + s[d..]
    ensures |WithoutId(s, Num(d))| == |s| - 1
    ensures WithoutId(s, Num(d))[|s| - 2] == s[|s| - 1]
  {
    var before, after := s[..d - 1], s[d..];
    assert NoMatch(before, Num(d)) by {
      forall k | 0 <= k < |before| ensures before[k].id == k + 1 {
        assert before[k] == s[k];
      }
    }
    assert NoMatch(after, Num(d)) by {
      forall k | 0 <= k < |after| ensures after[k].id == d + k + 1 {
        assert after[k] == s[d + k];
      }
    }
    assert s == before + [s[d - 1]] + after;
    DeleteOneOf(before, s[d - 1], after, Num(d));
    assert (before + after)[|s| - 2] == after[|after| - 1];
  }

  /** Deleting the id of a single record flanked by records without it removes just that one. */
  lemma DeleteOneOf(before: seq<User>, u: User, after: seq<User>, id: PathId)
    requires NoMatch(before, id) && Matches(u, id) && NoMatch(after, id)
    ensures WithoutId(before + [u] + after, id) == before + after
  {
    assert WithoutId([u], id) == [] by {
      assert [u][1..] == [];
    }
    WithoutIdAppend(before, [u], id);
    WithoutIdUnchangedIff(before, id);
    assert WithoutId(before + [u], id) == before;
    WithoutIdAppend(before + [u], after, id);
    WithoutIdUnchangedIff(after, id);
  }

  /**
   * The collision, driven through the store's own methods from the seed:
   * create Ana, delete id 1, create Bo.  Ana and Bo both get id 3.
   */
  method SeedCollisionScenario() returns (r: seq<User>)
    ensures r == [ User(2, Some("Clair"), Some("CC0710L")),
                   User(3, Some("Ana"), Some("P1")),
                   User(3, Some("Bo"), Some("P2")) ]
    ensures !UniqueIds(r)
  {
    var store := new UserStore();
    var joao, clair := store.users[0], store.users[1];
    var ana := store.Create(Some("Ana"), Some("P1"));
    assert store.users == [joao] + [clair, ana];
    DeleteOneOf([], joao, [clair, ana], Num(1));
    store.Delete(Num(1));
    var bo := store.Create(Some("Bo"), Some("P2"));
    r := store.List();
    assert r == [clair, ana, bo];
    assert r[1].id == r[2].id;
  }
}
