// The intrusive circular list of include/netlink/list.h.

module List {
  import opened Types

  ghost predicate Distinct<T>(s: seq<T>) {
    forall i, j :: 0 <= i < j < |s| ==> s[i] != s[j]
  }

  // s without the element at position i
  function Without<T>(s: seq<T>, i: nat): (r: seq<T>)
    requires i < |s|
    ensures |r| == |s| - 1
    ensures forall k :: 0 <= k < |r| ==> r[k] == if k < i then s[k] else s[k + 1]
  {
    s[..i] + s[i + 1..]
  }

  lemma WithoutAt<T>(s: seq<T>, i: nat, k: nat)
    requires i < |s| && k < |s| - 1
    ensures |Without(s, i)| == |s| - 1
    ensures Without(s, i)[k] == s[if k < i then k else k + 1]
  {}

  // The heads of s form one ring, in this order, both ways round.
  ghost predicate Ring(s: seq<ListHead>)
    reads s`next, s`prev
  {
    && |s| > 0
    && Distinct(s)
    && (forall i {:trigger s[i].next} :: 0 <= i < |s| - 1 ==> s[i].next == s[i + 1])
    && (forall i {:trigger s[i].prev} :: 0 < i < |s| ==> s[i].prev == s[i - 1])
    && s[|s| - 1].next == s[0]
    && s[0].prev == s[|s| - 1]
  }

  // nl_list_add_tail
  method ListAddTail(obj: ListHead, head: ListHead, ghost s: seq<ListHead>)
    requires Ring(s) && s[0] == head && obj !in s
    modifies obj`next, obj`prev, head`prev, head.prev`next
    ensures Ring(s + [obj])
    ensures obj.next == head
  {
    var prev, next := head.prev, head;
    prev.next := obj;
    obj.prev := prev;
    next.prev := obj;
    obj.next := next;
  }

  // nl_list_del: the neighbours are joined, the removed head keeps its links.
  method ListDel(obj: ListHead, ghost s: seq<ListHead>, ghost i: nat)
    requires Ring(s) && 0 < i < |s| && s[i] == obj
    modifies obj.next`prev, obj.prev`next
    ensures Ring(Without(s, i))
    ensures obj.next == old(obj.next) && obj.prev == old(obj.prev) && obj.next != obj
  {
    obj.next.prev := obj.prev;
    obj.prev.next := obj.next;
  }
}
