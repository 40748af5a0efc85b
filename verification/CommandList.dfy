/** The server's list of commands that loaded modules offer, and deleting by command or module name. */
module CommandList {
  import opened LinkedList

  /** Room for a command name in an entry, its terminating NUL included. */
  const CMD_SIZE := 255

  /** Names are C strings without their terminating NUL. */
  datatype Command = Command(moduleName: string, cmd: string, func: int)

  predicate Named(c: Command, name: string) { c.moduleName == name || c.cmd == name }

  /** The entries that do not go by a name, in order. */
  function Kept(nodes: seq<Node<Command>>, name: string): seq<Node<Command>>
  {
    if nodes == [] then []
    else if Named(nodes[0].item, name) then Kept(nodes[1..], name)
    else [nodes[0]] + Kept(nodes[1..], name)
  }

  /** Kept is the subsequence of exactly the other entries. */
  lemma {:induction false} KeptAre(nodes: seq<Node<Command>>, name: string, n: Node<Command>)
    ensures n in Kept(nodes, name) <==> n in nodes && n.item.moduleName != name && n.item.cmd != name
  {
    if nodes != [] { KeptAre(nodes[1..], name, n); }
  }

  lemma {:induction false} KeptAppends(a: seq<Node<Command>>, b: seq<Node<Command>>, name: string)
    ensures Kept(a + b, name) == Kept(a, name) + Kept(b, name)
  {
    if a == [] {
      assert a + b == b;
    } else {
      assert (a + b)[1..] == a[1..] + b;
      KeptAppends(a[1..], b, name);
    }
  }

  lemma {:induction false} KeptAll(nodes: seq<Node<Command>>, name: string)
    requires forall n <- nodes :: !Named(n.item, name)
    ensures Kept(nodes, name) == nodes
  {
    if nodes != [] { KeptAll(nodes[1..], name); }
  }

  /** Taking one entry of that name out makes no difference to what is kept. */
  lemma KeptWithout(nodes: seq<Node<Command>>, i: nat, name: string)
    requires i < |nodes| && Named(nodes[i].item, name)
    ensures Kept(Without(nodes, i), name) == Kept(nodes, name)
  {
    assert nodes == nodes[..i] + ([nodes[i]] + nodes[i + 1..]);
    KeptAppends(nodes[..i], [nodes[i]] + nodes[i + 1..], name);
    KeptAppends(nodes[..i], nodes[i + 1..], name);
  }

  class Commands {
    var first: Node?<Command>
    ghost var all: seq<Node<Command>>

    ghost predicate Valid()
      reads this, all
    {
      Linked(all) && first == First(all)
    }

    constructor ()
      ensures Valid() && all == []
    {
      first, all := null, [];
    }

    /** Appends an entry; the command name is cut to what fits. */
    method AddCommand(moduleName: string, cmd: string, func: int) returns (added: Node<Command>)
      requires Valid()
      modifies this, all`next
      ensures Valid() && fresh(added) && all == old(all) + [added]
      ensures added.item == Command(moduleName, if |cmd| <= 254 then cmd else cmd[..254], func)
    {
      added := new Node(Command(moduleName, if |cmd| < CMD_SIZE then cmd else cmd[..CMD_SIZE - 1], func));
      ghost var was := all;
      all := was + [added];
      if first == null {
        first := added;
      } else {
        var me := LastOf(first, was);
        me.next := added;
        added.prev := me;
      }
      Extended(was, added);
    }

    /** Walks to the last entry. */
    static method LastOf(from: Node<Command>, ghost nodes: seq<Node<Command>>) returns (me: Node<Command>)
      requires Linked(nodes) && nodes != [] && nodes[0] == from
      ensures me == nodes[|nodes| - 1]
    {
      me := from;
      ghost var k := 0;
      while me.next != null
        invariant 0 <= k < |nodes| && me == nodes[k]
        decreases |nodes| - k
      {
        me := me.next;
        k := k + 1;
      }
    }

    /** Takes the first entry out: the only one, or one with others behind it. */
    method UnlinkFirst(del: Node<Command>)
      requires Valid() && all != [] && all[0] == del
      modifies this, all`prev
      ensures Valid() && all == Without(old(all), 0)
    {
      hide Without;
      hide Linked;
      Unfold(all);
      ghost var was := all;
      all := Without(was, 0);
      if del.next == null {
        first := null;
      } else {
        del.next.prev := null;
        first := del.next;
      }
      WithoutEnds(was, 0);
      Bridged(was, 0);
    }

    /** Takes an entry out of the middle. */
    method UnlinkMiddle(del: Node<Command>, ghost i: nat)
      requires Valid() && 0 < i < |all| - 1 && all[i] == del
      modifies this`all, all`prev, all`next
      ensures Valid() && all == Without(old(all), i)
    {
      hide Without;
      hide Linked;
      Unfold(all);
      ghost var was := all;
      all := Without(was, i);
      hide At;
      hide Distinct;
      AtAround(was, i);
      Apart(was, i - 1, i + 1);
      del.prev.next := del.next;
      del.next.prev := del.prev;
      forall j | 0 <= j < |was| && j != i
        ensures was[j].prev == At(was, if j == i + 1 then i - 1 else j - 1)
        ensures was[j].next == At(was, if j == i - 1 then i + 1 else j + 1)
      {
        Apart(was, j, i - 1);
        Apart(was, j, i + 1);
      }
      WithoutEnds(was, i);
      Bridged(was, i);
    }

    /** Takes the last entry out, others being before it. */
    method UnlinkLast(del: Node<Command>)
      requires Valid() && |all| > 1 && all[|all| - 1] == del
      modifies this`all, all`next
      ensures Valid() && all == Without(old(all), |old(all)| - 1)
    {
      hide Without;
      hide Linked;
      Unfold(all);
      ghost var was, i := all, |all| - 1;
      all := Without(was, i);
      del.prev.next := null;
      assert Bridges(was, i);
      WithoutEnds(was, i);
      Bridged(was, i);
    }

    /** Deletes every entry whose module or command goes by the name, and nothing else: after each
        deletion it starts over. */
    method DelCommand(name: string)
      requires Valid()
      modifies this, all`prev, all`next
      ensures Valid() && all == Kept(old(all), name)
      decreases |all|
    {
      hide Kept;
      hide Without;
      hide Distinct;
      var del := first;
      ghost var i := 0;
      while del != null
        invariant 0 <= i <= |all| && del == At(all, i)
        invariant forall k :: 0 <= k < i ==> !Named(all[k].item, name)
        decreases |all| - i
      {
        if Named(del.item, name) {
          KeptWithout(all, i, name);
          OtherNodes(all, i);
          if del.prev == null && del.next == null {
            UnlinkFirst(del);
            KeptAll(all, name);
            return;
          } else if del.prev == null {
            UnlinkFirst(del);
          } else if del.next != null {
            UnlinkMiddle(del, i);
          } else {
            UnlinkLast(del);
          }
          DelCommand(name);
          return;
        }
        del := del.next;
        i := i + 1;
      }
      KeptAll(all, name);
    }
  }
}
