// The structures of the library that refer to each other: list heads, objects,
// hash nodes, hash tables and caches (include/netlink-private/types.h,
// include/netlink-private/object-api.h, include/netlink/hashtable.h).  The
// functions on them are in the modules named after their source files.

module Types {

  // ---------- object contents ----------

  type Attr = nat          // bit position of an attribute in ce_mask
  type Value = seq<bv8>    // the value of one attribute

  // An object's payload: the attributes it carries.  The keys are ce_mask.
  datatype Data = Data(attrs: map<Attr, Value>)

  // Which attributes identify an object: a fixed or per-object list
  // (oo_id_attrs, oo_id_attrs_get), or whatever both objects carry.
  datatype IdAttrs = Common | Listed(attrs: set<Attr>)

  // Error codes, as returned negated by the C functions.
  datatype Error = Exist | ObjMismatch | ObjNotFound | MsgTypeNoSupport | OtherError(code: nat)
  datatype Status = Ok | Failed(error: Error)

  // struct nl_object_ops.  compares are the attributes oo_compare has a term
  // for; a term may pass over a difference when the comparison is loose.
  class ObjectOps {
    const idAttrs: Data -> IdAttrs
    const comparable: bool                        // oo_compare != NULL
    const compares: set<Attr>
    const forgives: (Attr, Data, Data) -> bool    // the second is the filter
    const hashes: bool                            // oo_keygen != NULL
    const keygen: (Data, nat) -> nat              // oo_keygen

    constructor (idAttrs: Data -> IdAttrs, comparable: bool, compares: set<Attr>, forgives: (Attr, Data, Data) -> bool,
                 hashes: bool, keygen: (Data, nat) -> nat)
      ensures this.idAttrs == idAttrs && this.comparable == comparable && this.compares == compares
      ensures this.forgives == forgives && this.hashes == hashes && this.keygen == keygen
    {
      this.idAttrs, this.comparable, this.compares := idAttrs, comparable, compares;
      this.forgives, this.hashes, this.keygen := forgives, hashes, keygen;
    }
  }

  // ---------- linked structures ----------

  // struct nl_list_head; owner is what nl_list_entry recovers from the address
  class ListHead {
    var next: ListHead
    var prev: ListHead
    var owner: NlObject?

    // nl_init_list_head
    constructor ()
      ensures next == this && prev == this && owner == null
    {
      next, prev, owner := this, this, null;
    }
  }

  // struct nl_object.  The payload is fixed when the object is made.
  class NlObject {
    const ops: ObjectOps
    const data: Data
    const msgtype: nat
    const list: ListHead        // ce_list
    var refcnt: int             // ce_refcnt
    var cache: NlCache?         // ce_cache
    var marked: bool            // NL_OBJ_MARK in ce_flags
    var holders: nat            // references held outside caches and hash tables; not a field in C
    ghost var freed: bool       // free() was called

    // nl_object_alloc, then filled in by a parser or by nl_object_clone
    constructor (ops: ObjectOps, data: Data, msgtype: nat)
      ensures this.ops == ops && this.data == data && this.msgtype == msgtype
      ensures refcnt == 1 && holders == 1 && cache == null && !marked && !freed
      ensures fresh(list) && list.next == list && list.owner == this
    {
      this.ops, this.data, this.msgtype := ops, data, msgtype;
      var l := new ListHead();
      list := l;
      refcnt, cache, marked, holders, freed := 1, null, false, 1, false;
      new;
      list.owner := this;
    }
  }

  // struct nl_hash_node
  class HashNode {
    const obj: NlObject
    const key: nat
    var next: HashNode?

    constructor (obj: NlObject, key: nat, next: HashNode?)
      ensures this.obj == obj && this.key == key && this.next == next
    {
      this.obj, this.key, this.next := obj, key, next;
    }
  }

  // struct nl_hash_table: the head of every bucket's chain.  Chains lists the
  // nodes of every bucket in order.
  class HashTable {
    const size: nat
    var nodes: seq<HashNode?>
    ghost var Chains: seq<seq<HashNode>>

    // nl_hash_table_alloc
    constructor (size: nat)
      ensures this.size == size
      ensures nodes == seq(size, _ => null)
      ensures Chains == seq(size, _ => [])
    {
      this.size := size;
      nodes := seq(size, _ => null);
      Chains := seq(size, _ => []);
    }
  }

  // What a message type does to a cache (struct nl_msgtype, NL_ACT_*)
  datatype Action = ActNew | ActDel | ActOther
  datatype MsgType = MsgType(id: nat, act: Action)

  // struct nl_cache.  Items are the objects on its list, in order.
  class NlCache {
    const objOps: ObjectOps           // c_ops->co_obj_ops
    const msgtypes: seq<MsgType>      // c_ops->co_msgtypes
    const items: ListHead             // c_items
    const hashtable: HashTable?
    var nitems: int                   // c_nitems
    ghost var Items: seq<NlObject>

    // nl_cache_alloc: a hash table is made exactly for types with oo_keygen
    constructor (objOps: ObjectOps, msgtypes: seq<MsgType>, hashSize: nat)
      ensures this.objOps == objOps && this.msgtypes == msgtypes && Items == [] && nitems == 0
      ensures fresh(items) && items.next == items && items.prev == items && items.owner == null
      ensures hashtable != null <==> objOps.hashes
      ensures hashtable != null ==>
                && fresh(hashtable) && hashtable.size == hashSize
                && hashtable.nodes == seq(hashSize, _ => null)
                && hashtable.Chains == seq(hashSize, _ => [])
    {
      this.objOps, this.msgtypes := objOps, msgtypes;
      items := new ListHead();
      nitems, Items := 0, [];
      if objOps.hashes {
        hashtable := new HashTable(hashSize);
      } else {
        hashtable := null;
      }
    }
  }
}
