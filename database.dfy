/** `server/utils/database.js`: the four JSON collections held in memory, the
    id finders and the shallow-merge user update. Reading and writing the
    files is not modelled: each collection is a sequence field. */
module Database {
  import opened Common
  import opened Records

  class Db {
    var users: seq<Record>
    var shops: seq<Record>
    var messages: seq<Message>
    var orders: seq<Order>

    /** A data directory without files: every collection reads as `[]`. */
    constructor ()
      ensures users == [] && shops == [] && messages == [] && orders == []
    {
      users, shops, messages, orders := [], [], [], [];
    }
  }

  /** `findIndex(r => r[key] === v)`; `|rs|` stands for -1. */
  function IndexByKey(rs: seq<Record>, key: string, v: Value): (i: nat)
    ensures i <= |rs|
    ensures i < |rs| ==> Get(rs[i], key) == v
    ensures forall j :: 0 <= j < i ==> Get(rs[j], key) != v
  {
    if rs == [] then 0
    else if Get(rs[0], key) == v then 0
    else 1 + IndexByKey(rs[1..], key, v)
  }

  /** `find(r => r[key] === v)`: the first record whose `key` is `v`, if
      any. */
  function FindByKey(rs: seq<Record>, key: string, v: Value): (r: Option<Record>)
    ensures r.None? <==> forall j :: 0 <= j < |rs| ==> Get(rs[j], key) != v
    ensures r.Some? ==> Get(r.value, key) == v
    ensures r.Some? ==> exists j :: 0 <= j < |rs| && rs[j] == r.value &&
                                   forall k :: 0 <= k < j ==> Get(rs[k], key) != v
  {
    var i := IndexByKey(rs, key, v);
    if i < |rs| then Some(rs[i]) else None
  }

  /** `getUserById`: the first user with that id, or undefined. */
  function GetUserById(db: Db, userId: Value): Option<Record>
    reads db
  {
    FindByKey(db.users, "id", userId)
  }

  /** `getShopById`: the first shop with that id, or undefined. */
  function GetShopById(db: Db, shopId: Value): Option<Record>
    reads db
  {
    FindByKey(db.shops, "id", shopId)
  }

  /** `updateUser`: on a known id the record becomes the old one overridden
      key by key by `updates`, and that record is returned; nothing else
      changes. On an unknown id nothing is saved and the result is null. */
  method UpdateUser(db: Db, userId: Value, updates: Record) returns (r: Option<Record>)
    modifies db`users
    ensures var i := IndexByKey(old(db.users), "id", userId);
            if i == |old(db.users)| then r.None? && db.users == old(db.users)
            else r == Some(Merge(old(db.users)[i], updates)) && db.users == old(db.users)[i := r.value]
  {
    var i := IndexByKey(db.users, "id", userId);
    if i < |db.users| {
      db.users := db.users[i := Merge(db.users[i], updates)];
      r := Some(db.users[i]);
    } else {
      r := None;
    }
  }
}
