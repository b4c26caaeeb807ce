// The doubly linked directory of Subscriber_directory_v.2.0/lib/lib.c.
module DirectoryList {
  import opened Directory

  class Node {
    const record: Record
    var next: Node?
    var pred: Node?
    ghost var freed: bool

    constructor (record: Record, pred: Node?)
      ensures this.record == record && this.pred == pred && next == null && !freed
    {
      this.record := record;
      this.pred := pred;
      next := null;
      freed := false;
    }

    // free(): a node is freed once, and no freed node stays in the list.
    ghost method Free()
      requires !freed
      modifies this`freed
      ensures freed
    {
      freed := true;
    }
  }

  function Records(ns: seq<Node>): (r: seq<Record>)
    ensures |r| == |ns| && forall i :: 0 <= i < |ns| ==> r[i] == ns[i].record
  {
    seq(|ns|, i requires 0 <= i < |ns| => ns[i].record)
  }

  class Abonent {
    var node: Node?
    var size: int
    ghost var nodes: seq<Node>
    ghost var made: set<Node>   // every node ever inserted

    // The links mirror each other along the nodes ns.
    ghost predicate LinkedAs(ns: seq<Node>)
      reads this`node, ns
    {
      (forall i, j :: 0 <= i < j < |ns| ==> ns[i] != ns[j]) &&
      (ns == [] ==> node == null) &&
      (ns != [] ==> node == ns[0] && ns[0].pred == null && ns[|ns| - 1].next == null) &&
      (forall i {:trigger ns[i].pred} :: 1 <= i < |ns| ==> ns[i].pred == ns[i - 1]) &&
      (forall i {:trigger ns[i].next} :: 0 <= i < |ns| - 1 ==> ns[i].next == ns[i + 1])
    }

    ghost predicate Linked()
      reads this`node, this`nodes, nodes
    {
      LinkedAs(nodes)
    }

    // A node once inserted is in the list or freed, never both.
    ghost predicate Live()
      reads this`nodes, this`made, made
    {
      (forall x :: x in nodes ==> x in made) && (forall x :: x in made ==> (x in nodes <==> !x.freed))
    }

    ghost predicate Valid()
      reads this, nodes, made
    {
      Linked() && Live() && size == |nodes|
    }

    ghost function Contents(): (r: seq<Record>)
      reads this`nodes
    {
      Records(nodes)
    }

    constructor ()
      ensures Valid() && Contents() == [] && made == {}
    {
      node := null;
      size := 0;
      nodes := [];
      made := {};
    }

    // insert_abonent and insert: the new node goes to the end.
    method InsertAbonent(record: Record) returns (code: int)
      requires Valid()
      modifies this, made
      ensures Valid() && old(made) <= made && fresh(made - old(made))
      ensures code == if old(size) > 100 then 1 else 0
      ensures Contents() == if code == 0 then old(Contents()) + [record] else old(Contents())
    {
      if size > 100 {
        return 1;
      }
      if node == null {
        var newNode := new Node(record, null);
        node := newNode;
        nodes := [newNode];
        made := made + {newNode};
      } else {
        var temp := node;
        ghost var k := 0;
        while temp.next != null
          invariant 0 <= k < |nodes| && temp == nodes[k]
          decreases |nodes| - k
        {
          temp := temp.next;
          k := k + 1;
        }
        Append(temp, record);
      }
      size := size + 1;
      return 0;
    }

    // Lines 64-72: a node behind the last one.
    method Append(last: Node, record: Record)
      requires Linked() && Live() && nodes != [] && last == nodes[|nodes| - 1]
      modifies this`nodes, this`made, last`next
      ensures Linked() && Live() && Contents() == old(Contents()) + [record] && |nodes| == old(|nodes|) + 1
      ensures old(made) <= made && fresh(made - old(made))
    {
      var newNode := new Node(record, last);
      last.next := newNode;
      nodes := nodes + [newNode];
      made := made + {newNode};
    }

    // search: a position counted from 1, past the end when the name is absent.
    method Search(name: string) returns (index: int)
      requires Valid()
      ensures index == FirstMatch(Contents(), name) + 1
      ensures index > size <==> FirstMatch(Contents(), name) == |Contents()|
    {
      var current := node;
      index := 1;
      ghost var k := 0;
      while current != null
        invariant 0 <= k <= |nodes| && index == k + 1
        invariant current == if k == |nodes| then null else nodes[k]
        invariant FirstMatch(Contents(), name) == k + FirstMatch(Contents()[k..], name)
        decreases |nodes| - k
      {
        if current.record.name == name {
          break;
        }
        assert Contents()[k..][1..] == Contents()[k + 1..];
        current := current.next;
        index := index + 1;
        k := k + 1;
      }
    }

    // delete_node: the four-way unlinking of the k-th node.
    method DeleteNode(current: Node, ghost k: nat) returns (next: Node?)
      requires Linked() && Live() && k < |nodes| && current == nodes[k]
      modifies this`node, this`nodes, made
      ensures Linked() && Live()
      ensures nodes == old(nodes)[..k] + old(nodes)[k + 1..]
      ensures next == if k < |nodes| then nodes[k] else null
    {
      var pred := current.pred;
      next := current.next;
      current.Free();
      Relink(pred, next, k);
      Forget(k);
    }

    // Drops the k-th node, which has been freed, from the ghost list.
    ghost method Forget(k: nat)
      requires k < |nodes| && forall i, j :: 0 <= i < j < |nodes| ==> nodes[i] != nodes[j]
      requires LinkedAs(nodes[..k] + nodes[k + 1..])
      requires forall x :: x in nodes ==> x in made
      requires forall x :: x in made ==> (x in nodes && x != nodes[k] <==> !x.freed)
      modifies this`nodes
      ensures nodes == old(nodes)[..k] + old(nodes)[k + 1..]
      ensures Linked() && Live()
    {
      RemoveMember(nodes, k);
      nodes := nodes[..k] + nodes[k + 1..];
    }

    // The pointers around the k-th node, which itself is not touched again.
    method Relink(pred: Node?, next: Node?, ghost k: nat)
      requires k < |nodes| && Linked() && pred == nodes[k].pred && next == nodes[k].next
      requires forall x :: x in nodes ==> x in made
      modifies this`node, made`next, made`pred
      ensures LinkedAs(nodes[..k] + nodes[k + 1..])
    {
      assert pred != null ==> k > 0 && pred == nodes[k - 1] && pred in nodes;
      assert next != null ==> k < |nodes| - 1 && next == nodes[k + 1] && next in nodes;
      if next == null && pred == null {
        node := null;
      } else if next == null && pred != null {
        pred.next := null;
      } else if next != null && pred == null {
        next.pred := null;
        node := next;
      } else {
        pred.next := next;
        next.pred := pred;
      }
    }

    // Lines 172-173: delete a match and count it.
    method DeleteMatch(current: Node, ghost k: nat) returns (next: Node?)
      requires Valid() && k < |nodes| && current == nodes[k]
      modifies this`node, this`nodes, this`size, made
      ensures Valid() && k <= |nodes| && next == if k == |nodes| then null else nodes[k]
      ensures Contents()[..k] == old(Contents())[..k] && Contents()[k..] == old(Contents())[k + 1..]
    {
      ghost var before := nodes;
      next := DeleteNode(current, k);
      size := size - 1;
      RemovedContents(before, k);
    }

    // The loop of delete_abonent.
    method DeleteMatches(name: string)
      requires Valid()
      modifies this`node, this`nodes, this`size, made
      ensures Valid() && Contents() == Without(old(Contents()), name)
    {
      var current := node;
      ghost var k := 0;
      ghost var all := Contents();
      assert all[..0] == [] && all[0..] == all;
      while current != null
        invariant Valid() && 0 <= k <= |nodes|
        invariant current == if k == |nodes| then null else nodes[k]
        invariant Contents()[..k] + Without(Contents()[k..], name) == Without(all, name)
        decreases |nodes| - k
      {
        KeepOrDrop(Contents(), k, name);
        if current.record.name == name {
          current := DeleteMatch(current, k);
        } else {
          current := current.next;
          k := k + 1;
        }
      }
      assert Contents()[k..] == [];
    }

    // delete_abonent
    method DeleteAbonent(name: string) returns (code: int)
      requires Valid()
      modifies this`node, this`nodes, this`size, made
      ensures Valid() && Contents() == Without(old(Contents()), name)
      ensures code == if old(size) == 0 then -2 else if FirstMatch(old(Contents()), name) == old(size) then -3 else 0
    {
      if size == 0 {
        return -2;
      }
      var found := Search(name);
      if found > size {
        WithoutNone(Contents(), name);
        return -3;
      }
      DeleteMatches(name);
      return 0;
    }
  }

  lemma RemoveMember<T>(xs: seq<T>, k: nat)
    requires k < |xs| && forall i, j :: 0 <= i < j < |xs| ==> xs[i] != xs[j]
    ensures forall x :: x in xs[..k] + xs[k + 1..] <==> x in xs && x != xs[k]
  {
  }

  // What the loop does with record k, before any node is touched.
  lemma KeepOrDrop(rs: seq<Record>, k: nat, name: string)
    requires k < |rs|
    ensures rs[k].name == name ==> Without(rs[k..], name) == Without(rs[k + 1..], name)
    ensures rs[k].name != name ==> rs[..k] + Without(rs[k..], name) == rs[..k + 1] + Without(rs[k + 1..], name)
  {
    assert rs[k..][1..] == rs[k + 1..];
    assert rs[..k + 1] == rs[..k] + [rs[k]];
  }

  lemma RemovedContents(ns: seq<Node>, k: nat)
    requires k < |ns|
    ensures var after := Records(ns[..k] + ns[k + 1..]);
            after[..k] == Records(ns)[..k] && after[k..] == Records(ns)[k + 1..]
  {
  }
}
