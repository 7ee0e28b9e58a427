/**
 * The generic data-access layer `CRUDBase`, over in-memory collections: the
 * store of one model is a sequence of entities in storage order, and an
 * object's column data is a map from column names to values.
 */
module Crud {
  import opened Wrappers
  import opened Ledger

  /** The authenticated user; only its id is used. */
  datatype User = User(id: int)

  /** A column value as the request schemas carry it; `NoneValue` is an explicit null. */
  datatype Value = NoneValue | IntValue(i: int) | StrValue(s: string) | BoolValue(b: bool)

  /** The name of the owner column that `create` adds. */
  const UserIdField: string := "user_id"

  /**
   * `get`: the first stored entity whose id is `objId`, or `None` when no
   * entity has that id.
   */
  function Get(store: seq<Entity>, objId: int): (r: Option<Entity>)
    ensures r.Some? ==> r.value in store && r.value.id == objId
    ensures r.None? <==> forall e :: e in store ==> e.id != objId
  {
    if store == [] then None
    else if store[0].id == objId then Some(store[0])
    else Get(store[1..], objId)
  }

  /** `get` returns the match with the smallest position in the store. */
  lemma {:induction false} GetReturnsFirst(store: seq<Entity>, objId: int, k: nat)
    requires k < |store| && store[k].id == objId
    requires forall j :: 0 <= j < k ==> store[j].id != objId
    ensures Get(store, objId) == Some(store[k])
  {
    if k > 0 {
      GetReturnsFirst(store[1..], objId, k - 1);
    }
  }

  /** `get_by_user`: the entities owned by `user`, in storage order. */
  function GetByUser(store: seq<Entity>, user: User): (r: seq<Entity>)
    ensures |r| <= |store|
    ensures forall i :: 0 <= i < |r| ==> r[i] in store && r[i].userId == Some(user.id)
    ensures forall i :: 0 <= i < |store| && store[i].userId == Some(user.id) ==> store[i] in r
  {
    if store == [] then []
    else
      (if store[0].userId == Some(user.id) then [store[0]] else []) + GetByUser(store[1..], user)
  }

  /**
   * The selection keeps storage order: selecting from two stretches of the
   * store one after the other gives the two selections one after the other.
   */
  lemma {:induction false} GetByUserAppend(a: seq<Entity>, b: seq<Entity>, user: User)
    ensures GetByUser(a + b, user) == GetByUser(a, user) + GetByUser(b, user)
  {
    if a != [] {
      var head := if a[0].userId == Some(user.id) then [a[0]] else [];
      assert (a + b)[0] == a[0] && (a + b)[1..] == a[1..] + b;
      GetByUserAppend(a[1..], b, user);
      assert head + (GetByUser(a[1..], user) + GetByUser(b, user))
          == (head + GetByUser(a[1..], user)) + GetByUser(b, user);
    } else {
      assert a + b == b;
    }
  }

  /** The stored entities that are still open, in storage order. */
  function OpenEntities(store: seq<Entity>): (r: seq<Entity>)
    reads store
    ensures multiset(r) <= multiset(store)
    ensures forall i :: 0 <= i < |r| ==> r[i] in store && !r[i].fullyInvested
    ensures forall i :: 0 <= i < |store| && !store[i].fullyInvested ==> store[i] in r
  {
    if store == [] then []
    else
      assert store == [store[0]] + store[1..];
      (if !store[0].fullyInvested then [store[0]] else []) + OpenEntities(store[1..])
  }

  predicate SortedByCreateDate(s: seq<Entity>)
  {
    forall i, j :: 0 <= i < j < |s| ==> s[i].createDate <= s[j].createDate
  }

  /** Insert `e` into sorted `s`, after every entity created no later than it. */
  function InsertByCreateDate(e: Entity, s: seq<Entity>): (r: seq<Entity>)
    requires SortedByCreateDate(s)
    ensures |r| == |s| + 1
    ensures r[0] == e || (s != [] && r[0] == s[0])
    ensures SortedByCreateDate(r)
    ensures multiset(r) == multiset(s) + multiset{e}
  {
    if s == [] || e.createDate < s[0].createDate then [e] + s
    else
      assert s == [s[0]] + s[1..];
      var rest := InsertByCreateDate(e, s[1..]);
      assert s[0].createDate <= rest[0].createDate;
      [s[0]] + rest
  }

  /** An insertion sort by creation date. */
  function SortByCreateDate(s: seq<Entity>): (r: seq<Entity>)
    ensures SortedByCreateDate(r)
    ensures multiset(r) == multiset(s)
  {
    if s == [] then []
    else
      var front := s[..|s| - 1];
      assert s == front + [s[|s| - 1]];
      InsertByCreateDate(s[|s| - 1], SortByCreateDate(front))
  }

  /**
   * `get_active_objects`: the stored entities that are not fully invested,
   * oldest first, none more often than it is stored (and, by
   * `GetActiveObjectsKeepsCounts`, each open one exactly as often).
   */
  function GetActiveObjects(store: seq<Entity>): (r: seq<Entity>)
    reads store
    ensures forall i :: 0 <= i < |r| ==> r[i] in store && !r[i].fullyInvested
    ensures forall i :: 0 <= i < |store| && !store[i].fullyInvested ==> store[i] in r
    ensures SortedByCreateDate(r)
    ensures multiset(r) <= multiset(store)
  {
    var open := OpenEntities(store);
    var sorted := SortByCreateDate(open);
    SubMultisetMembers(sorted, open);
    SubMultisetMembers(open, sorted);
    sorted
  }

  /** The open-entity filter keeps every open entity as often as it is stored. */
  lemma {:induction false} OpenEntitiesKeepCounts(store: seq<Entity>, x: Entity)
    requires !x.fullyInvested
    ensures multiset(OpenEntities(store))[x] == multiset(store)[x]
  {
    if store != [] {
      assert store == [store[0]] + store[1..];
      OpenEntitiesKeepCounts(store[1..], x);
    }
  }

  /**
   * `get_active_objects` returns every open stored entity exactly as often
   * as it is stored, so nothing open is lost or repeated.
   */
  lemma GetActiveObjectsKeepsCounts(store: seq<Entity>, x: Entity)
    requires !x.fullyInvested
    ensures multiset(GetActiveObjects(store))[x] == multiset(store)[x]
  {
    OpenEntitiesKeepCounts(store, x);
  }

  /** Every element of a sequence whose multiset is contained in another's occurs in the other. */
  lemma SubMultisetMembers(a: seq<Entity>, b: seq<Entity>)
    requires multiset(a) <= multiset(b)
    ensures forall i :: 0 <= i < |a| ==> a[i] in b
  {
    forall i | 0 <= i < |a|
      ensures a[i] in b
    {
      assert a[i] in multiset(a);
    }
  }

  predicate Distinct(s: seq<Entity>)
  {
    forall i, j :: 0 <= i < j < |s| ==> s[i] != s[j]
  }

  lemma DistinctCountsOnce(s: seq<Entity>, x: Entity)
    requires Distinct(s)
    ensures multiset(s)[x] <= 1
  {
    if s != [] {
      var last := s[|s| - 1];
      var front := s[..|s| - 1];
      assert s == front + [last];
      assert Distinct(front);
      DistinctCountsOnce(front, x);
      if x == last {
        assert x !in front;
      }
    }
  }

  lemma TwoPositionsCountTwice(s: seq<Entity>, i: nat, j: nat)
    requires i < j < |s| && s[i] == s[j]
    ensures multiset(s)[s[i]] >= 2
  {
    assert s == s[..i] + [s[i]] + s[i + 1..j] + [s[j]] + s[j + 1..];
  }

  lemma CountingOnceIsDistinct(s: seq<Entity>)
    requires forall x :: multiset(s)[x] <= 1
    ensures Distinct(s)
  {
    forall i, j | 0 <= i < j < |s|
      ensures s[i] != s[j]
    {
      if s[i] == s[j] {
        TwoPositionsCountTwice(s, i, j);
        assert false;
      }
    }
  }

  /**
   * What `get_active_objects` hands to the allocation meets its
   * preconditions: when the store holds each row once, every row satisfies
   * the ledger invariant with its invested amount set, and the target is
   * not stored there, then the candidates are distinct, differ from the
   * target, have their invested amount set and can all still take or give a
   * positive amount.
   */
  lemma ActiveObjectsFitAllocation(store: seq<Entity>, target: Entity)
    requires Distinct(store)
    requires forall e :: e in store ==> e.State().Valid() && e.investedAmount.Some?
    requires target !in store
    ensures var r := GetActiveObjects(store);
      && Distinct(r)
      && target !in r
      && forall e :: e in r ==> e.investedAmount.Some? && e.State().Room() > 0
  {
    var r := GetActiveObjects(store);
    forall x
      ensures multiset(r)[x] <= 1
    {
      DistinctCountsOnce(store, x);
    }
    CountingOnceIsDistinct(r);
  }

  /**
   * `create`: the column data of the new object is the input's data, with
   * the owner's id added as `user_id` when a user is given.
   */
  method Create(objIn: map<string, Value>, user: Option<User>) returns (objInData: map<string, Value>)
    ensures objInData.Keys == if user.Some? then objIn.Keys + {UserIdField} else objIn.Keys
    ensures forall k :: k in objIn && k != UserIdField ==> objInData[k] == objIn[k]
    ensures user.Some? ==> objInData[UserIdField] == IntValue(user.value.id)
    ensures user.None? ==> objInData == objIn
  {
    objInData := objIn;
    if user.Some? {
      objInData := objInData[UserIdField := IntValue(user.value.id)];
    }
  }

  /**
   * The fields an update request sets to a value: the explicitly set fields
   * of the request minus those set to null.
   */
  function ProvidedFields(objIn: map<string, Value>): (r: map<string, Value>)
    ensures forall k :: k in r <==> k in objIn && objIn[k] != NoneValue
    ensures forall k :: k in r ==> r[k] == objIn[k]
  {
    map k | k in objIn && objIn[k] != NoneValue :: objIn[k]
  }

  /**
   * The column data after an update: every column keeps its value unless
   * the update provides one for it.
   */
  function Merge(data: map<string, Value>, updateData: map<string, Value>): (r: map<string, Value>)
    ensures r.Keys == data.Keys
    ensures forall k :: k in data && k in updateData ==> r[k] == updateData[k]
    ensures forall k :: k in data && k !in updateData ==> r[k] == data[k]
  {
    map k | k in data :: if k in updateData then updateData[k] else data[k]
  }

  /** Applying the same update twice is the same as applying it once. */
  lemma MergeIdempotent(data: map<string, Value>, updateData: map<string, Value>)
    ensures Merge(Merge(data, updateData), updateData) == Merge(data, updateData)
  {
  }

  /**
   * Fields an update request leaves unset or sets to null, and names that are
   * not columns of the object, leave the object as it was; every column the
   * request sets to a value takes that value.
   */
  lemma UpdateTouchesOnlyProvidedColumns(data: map<string, Value>, objIn: map<string, Value>)
    ensures var r := Merge(data, ProvidedFields(objIn));
      && r.Keys == data.Keys
      && (forall k :: k in data && (k !in objIn || objIn[k] == NoneValue) ==> r[k] == data[k])
      && (forall k :: k in data && k in objIn && objIn[k] != NoneValue ==> r[k] == objIn[k])
  {
  }

  /** A stored object's column data, as `update` reads and writes it. */
  class Record {
    var fields: map<string, Value>

    constructor (fields: map<string, Value>)
      ensures this.fields == fields
    {
      this.fields := fields;
    }
  }

  /**
   * `update`: for every column of the object, in turn, copy the value the
   * request provides for it, if any.
   */
  method Update(dbObj: Record, objIn: map<string, Value>)
    modifies dbObj
    ensures dbObj.fields == Merge(old(dbObj.fields), ProvidedFields(objIn))
  {
    var objData := dbObj.fields;
    var updateData := ProvidedFields(objIn);
    var pending := objData.Keys;
    while pending != {}
      invariant pending <= objData.Keys
      invariant dbObj.fields.Keys == objData.Keys
      invariant forall k :: k in pending ==> dbObj.fields[k] == objData[k]
      invariant forall k :: k in objData && k !in pending ==>
        dbObj.fields[k] == Merge(objData, updateData)[k]
      decreases pending
    {
      var field :| field in pending;
      if field in updateData {
        dbObj.fields := dbObj.fields[field := updateData[field]];
      }
      pending := pending - {field};
    }
  }
}
