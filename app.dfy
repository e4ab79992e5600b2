/**
 * The in-memory user record store behind the users service: an ordered list
 * of records seeded with two entries, which can be listed, appended to and
 * filtered by id. The HTTP layer around it is not modelled; a request payload
 * is two optional strings, and a response is a value paired with its status.
 */
module App {
  import opened Wrappers

  /** One user record. The id is meant to identify the record but is not kept unique. */
  datatype User = User(id: int, name: Option<string>, email: Option<string>)

  /** Status the create operation reports. */
  const Created: int := 201
  /** Status the delete operation reports. */
  const Ok: int := 200
  /** Message the delete operation reports, whether or not anything matched. */
  const DeletedMessage: string := "User deleted"

  /** The two records the store holds when the service starts. */
  const Seed: seq<User> := [
    User(1, Some("John Doe"), Some("john@example.com")),
    User(2, Some("Jane Smith"), Some("jane@example.com"))
  ]

  /** The record create builds over the store `us`: its id is drawn from the length. */
  function NewUser(us: seq<User>, name: Option<string>, email: Option<string>): (u: User)
  {
    User(|us| + 1, name, email)
  }

  /**
   * The records of `us` whose id differs from `k`, in their original order:
   * the list comprehension that delete rebinds the store to.
   */
  function WithoutId(us: seq<User>, k: int): (r: seq<User>)
    ensures |r| <= |us|
    ensures forall u :: u in r ==> u in us && u.id != k
  {
    if us == [] then []
    else if us[0].id == k then WithoutId(us[1..], k)
    else [us[0]] + WithoutId(us[1..], k)
  }

  /** How many records of `us` carry the id `k`. */
  function CountId(us: seq<User>, k: int): (n: nat)
  {
    if us == [] then 0
    else (if us[0].id == k then 1 else 0) + CountId(us[1..], k)
  }

  /** No two records of `us` share an id. */
  predicate UniqueIds(us: seq<User>)
  {
    forall i, j :: 0 <= i < j < |us| ==> us[i].id != us[j].id
  }

  /** The record at each position i carries the id i + 1. */
  predicate IdsArePositions(us: seq<User>)
  {
    forall i :: 0 <= i < |us| ==> us[i].id == i + 1
  }

  /** The store after the creates `payloads`, applied in order to `us`. */
  function ApplyAdds(us: seq<User>, payloads: seq<(Option<string>, Option<string>)>): (r: seq<User>)
    decreases |payloads|
  {
    if payloads == [] then us
    else ApplyAdds(us + [NewUser(us, payloads[0].0, payloads[0].1)], payloads[1..])
  }

  // ---------------------------------------------------------------------------
  // The store object: the module-level list, owned by one object.

  class UserStore {
    var users: seq<User>

    /** The store as the service starts: exactly the two seed records, in order. */
    constructor ()
      ensures users == [
        User(1, Some("John Doe"), Some("john@example.com")),
        User(2, Some("Jane Smith"), Some("jane@example.com"))
      ]
      ensures IdsArePositions(users) && UniqueIds(users)
    {
      users := Seed;
    }

    /** List: the current records, in order; the store is not changed. */
    method List() returns (r: seq<User>)
      ensures r == users
    {
      r := users;
    }

    /**
     * Create: a record with id |users| + 1 and the supplied (or absent) name
     * and email, appended at the end; reports 201 with the new record.
     */
    method Add(name: Option<string>, email: Option<string>) returns (u: User, status: int)
      modifies this
      ensures u.id == |old(users)| + 1 && u.name == name && u.email == email
      ensures users == old(users) + [u]
      ensures |users| == |old(users)| + 1
      ensures status == Created
      ensures IdsArePositions(old(users)) ==> IdsArePositions(users) && UniqueIds(users)
    {
      u := NewUser(users, name, email);
      users := users + [u];
      status := Created;
      if IdsArePositions(old(users)) {
        PositionalIdsAreUnique(users);
      }
    }

    /**
     * Delete: the store keeps exactly the records whose id differs from `k`, in
     * order; reports 200 with the same message whether or not anything matched.
     */
    method Delete(k: int) returns (message: string, status: int)
      modifies this
      ensures users == WithoutId(old(users), k)
      ensures forall u :: u in users ==> u.id != k
      ensures forall u :: u in old(users) && u.id != k ==> u in users
      ensures |users| == |old(users)| - CountId(old(users), k)
      ensures (forall u :: u in old(users) ==> u.id != k) ==> users == old(users)
      ensures message == DeletedMessage && status == Ok
    {
      WithoutIdKeeps(users, k);
      WithoutIdLength(users, k);
      WithoutIdOfAbsent(users, k);
      users := WithoutId(users, k);
      message, status := DeletedMessage, Ok;
    }
  }

  // ---------------------------------------------------------------------------
  // Lemmas about the filter used by delete.

  /** Every record whose id differs from `k` survives the filter. */
  lemma {:induction false} WithoutIdKeeps(us: seq<User>, k: int)
    ensures forall u :: u in us && u.id != k ==> u in WithoutId(us, k)
  {
    if us != [] {
      WithoutIdKeeps(us[1..], k);
      forall u | u in us && u.id != k
        ensures u in WithoutId(us, k)
      {
        if u != us[0] {
          assert u in us[1..];
        }
      }
    }
  }

  /** Membership after the filter, both directions. */
  lemma {:induction false} WithoutIdMembership(us: seq<User>, k: int, u: User)
    ensures u in WithoutId(us, k) <==> u in us && u.id != k
  {
    WithoutIdKeeps(us, k);
  }

  /** The filter removes exactly the records carrying the id `k`. */
  lemma {:induction false} WithoutIdLength(us: seq<User>, k: int)
    ensures |WithoutId(us, k)| == |us| - CountId(us, k)
  {
    if us != [] {
      WithoutIdLength(us[1..], k);
    }
  }

  /** The filter distributes over concatenation: it keeps the records' relative order. */
  lemma {:induction false} WithoutIdAppend(a: seq<User>, b: seq<User>, k: int)
    ensures WithoutId(a + b, k) == WithoutId(a, k) + WithoutId(b, k)
  {
    if a == [] {
      assert a + b == b;
    } else {
      assert (a + b)[1..] == a[1..] + b;
      WithoutIdAppend(a[1..], b, k);
    }
  }

  /**
   * The filter keeps each record's multiplicity when its id differs from `k`
   * and drops all its copies otherwise: the result is exactly the filtered
   * list, duplicates included.
   */
  lemma {:induction false} WithoutIdMultiplicity(us: seq<User>, k: int, u: User)
    ensures multiset(WithoutId(us, k))[u] == if u.id == k then 0 else multiset(us)[u]
  {
    if us != [] {
      WithoutIdMultiplicity(us[1..], k, u);
      assert us == [us[0]] + us[1..];
    }
  }

  /**
   * The filter leaves `us` unchanged exactly when no record carries the id `k`.
   */
  lemma {:induction false} WithoutIdOfAbsent(us: seq<User>, k: int)
    ensures WithoutId(us, k) == us <==> forall u :: u in us ==> u.id != k
  {
    if us != [] {
      WithoutIdOfAbsent(us[1..], k);
      assert forall u :: u in us[1..] ==> u in us;
    }
  }

  /** Filtering twice by the same id is the same as filtering once: delete is idempotent. */
  lemma {:induction false} WithoutIdIdempotent(us: seq<User>, k: int)
    ensures WithoutId(WithoutId(us, k), k) == WithoutId(us, k)
  {
    WithoutIdOfAbsent(WithoutId(us, k), k);
  }

  // ---------------------------------------------------------------------------
  // Lemmas about the ids create hands out.

  /** Ids equal to positions are distinct. */
  lemma PositionalIdsAreUnique(us: seq<User>)
    requires IdsArePositions(us)
    ensures UniqueIds(us)
  {
  }

  /**
   * While only creates have happened since seeding, the record at position i
   * carries the id i + 1, so all ids are distinct.
   */
  lemma {:induction false} AddsOnlyKeepIdsPositional(us: seq<User>, payloads: seq<(Option<string>, Option<string>)>)
    requires IdsArePositions(us)
    ensures |ApplyAdds(us, payloads)| == |us| + |payloads|
    ensures IdsArePositions(ApplyAdds(us, payloads))
    ensures UniqueIds(ApplyAdds(us, payloads))
    decreases |payloads|
  {
    if payloads != [] {
      var next := us + [NewUser(us, payloads[0].0, payloads[0].1)];
      assert IdsArePositions(next);
      AddsOnlyKeepIdsPositional(next, payloads[1..]);
    }
  }

  /** From the seed, any run of creates leaves ids distinct. */
  lemma SeedThenAddsHaveUniqueIds(payloads: seq<(Option<string>, Option<string>)>)
    ensures UniqueIds(ApplyAdds(Seed, payloads))
  {
    AddsOnlyKeepIdsPositional(Seed, payloads);
  }

  /**
   * Ids are not unique in general: from the seed, deleting id 1 and then
   * creating a record hands out id 2 a second time.
   */
  lemma DeleteThenAddDuplicatesId(name: Option<string>, email: Option<string>)
    ensures WithoutId(Seed, 1) == [Seed[1]]
    ensures var s := WithoutId(Seed, 1) + [NewUser(WithoutId(Seed, 1), name, email)];
      s[0].id == 2 && s[1].id == 2 && !UniqueIds(s)
  {
  }

  // ---------------------------------------------------------------------------
  // Clients of the store object.

  /**
   * Create then delete from a fresh store: create returns record 3 with status
   * 201, the store then holds three records, and after deleting id 1 the ids
   * left are 2 and 3.
   */
  method CreateThenDeleteScenario() returns (created: User, createdStatus: int, countAfterCreate: nat, deleteStatus: int, ids: seq<int>)
    ensures created == User(3, Some("A"), Some("a@x.com")) && createdStatus == 201
    ensures countAfterCreate == 3
    ensures deleteStatus == 200
    ensures ids == [2, 3]
  {
    var store := new UserStore();
    created, createdStatus := store.Add(Some("A"), Some("a@x.com"));
    var listed := store.List();
    countAfterCreate := |listed|;
    var _, st := store.Delete(1);
    deleteStatus := st;
    listed := store.List();
    assert listed == [Seed[1], created] by {
      assert store.users == WithoutId(Seed + [created], 1);
    }
    ids := seq(|listed|, i requires 0 <= i < |listed| => listed[i].id);
  }

  /** Deleting the same id twice from a fresh store: both report success, the second changes nothing. */
  method DeleteTwiceScenario(k: int) returns (first: seq<User>, second: seq<User>, status1: int, status2: int)
    ensures second == first
    ensures status1 == 200 && status2 == 200
    ensures forall u :: u in second ==> u.id != k
  {
    var store := new UserStore();
    var _, s1 := store.Delete(k);
    first := store.List();
    var _, s2 := store.Delete(k);
    second := store.List();
    status1, status2 := s1, s2;
  }

  /**
   * Ids are not unique on the store either: a fresh store, delete id 1, then a
   * create leaves two records that both carry id 2.
   */
  method DeleteThenAddScenario(name: Option<string>, email: Option<string>) returns (listed: seq<User>, created: User)
    ensures |listed| == 2 && listed[0] == Seed[1] && listed[1] == created
    ensures created == User(2, name, email)
    ensures listed[0].id == 2 && listed[1].id == 2 && !UniqueIds(listed)
  {
    var store := new UserStore();
    var _, _ := store.Delete(1);
    var status;
    created, status := store.Add(name, email);
    listed := store.List();
  }
}
