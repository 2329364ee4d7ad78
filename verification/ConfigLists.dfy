/** The multi-value options in memory: one linked list for every option, appended to at its end
    and freed as a whole. */
module ConfigLists {
  import opened Config

  /** What a node holds: struct conf_multi_str_s a string, struct conf_multi_mapping_s a mapping. */
  datatype Item = TextItem(text: string) | MapItem(mapping: Mapping)

  class Node {
    var next: Node?
    const item: Item

    constructor (item: Item)
      ensures this.item == item && next == null
    {
      this.item, next := item, null;
    }
  }

  function Items(chain: seq<Node>): (s: seq<Item>)
    ensures |s| == |chain| && forall k :: 0 <= k < |s| ==> s[k] == chain[k].item
  {
    seq(|chain|, k requires 0 <= k < |chain| => chain[k].item)
  }

  function TextItems(l: seq<string>): (s: seq<Item>)
    ensures |s| == |l| && forall k :: 0 <= k < |s| ==> s[k] == TextItem(l[k])
  {
    seq(|l|, k requires 0 <= k < |l| => TextItem(l[k]))
  }

  function MapItems(m: seq<Mapping>): (s: seq<Item>)
    ensures |s| == |m| && forall k :: 0 <= k < |s| ==> s[k] == MapItem(m[k])
  {
    seq(|m|, k requires 0 <= k < |m| => MapItem(m[k]))
  }

  /** The value of an option that is kept in a list with these items, or in a variable. */
  predicate Represents(v: OptionValue, variable: OptionValue, items: seq<Item>) {
    match v
    case List(l) => items == TextItems(l)
    case Maps(m) => items == MapItems(m)
    case _ => items == [] && variable == v
  }

  /** The node at position k, or null behind the last one. */
  function At(chain: seq<Node>, k: nat): Node? {
    if k < |chain| then chain[k] else null
  }

  /** Every node points to the one after it, and the last one nowhere. */
  ghost predicate Linked(chain: seq<Node>)
    reads chain
  {
    forall k :: 0 <= k < |chain| ==> chain[k].next == At(chain, k + 1)
  }

  /** The lists of all options. `chains` are their nodes, and `freed` is what free() was given. */
  class ListStore {
    var heads: seq<Node?>
    ghost var chains: seq<seq<Node>>
    ghost var live: set<Node>
    ghost var freed: set<Node>

    constructor (n: nat)
      ensures Valid() && |heads| == n && live == {} && freed == {}
      ensures forall i :: 0 <= i < n ==> chains[i] == []
    {
      heads, chains := seq(n, _ => null), seq(n, _ => []);
      live, freed := {}, {};
    }

    /** The list of option i consists of these nodes, none of which was freed. */
    ghost predicate Chain(i: nat)
      requires i < |heads| == |chains|
      reads this, live
    {
      (forall k :: 0 <= k < |chains[i]| ==> chains[i][k] in live) && heads[i] == At(chains[i], 0) && Linked(chains[i])
    }

    /** No node occurs twice, in one list or in two: lists are acyclic and disjoint. */
    ghost predicate Distinct()
      reads this
    {
      forall i, k, j, l ::
        0 <= i < |chains| && 0 <= k < |chains[i]| && 0 <= j < |chains| && 0 <= l < |chains[j]| && (i != j || k != l)
        ==> chains[i][k] != chains[j][l]
    }

    ghost predicate Valid()
      reads this, live
    {
      && |heads| == |chains| && live !! freed
      && (forall i :: 0 <= i < |chains| ==> Chain(i))
      && Distinct()
    }

    /** The end of a list that is not empty. */
    method LastNode(i: nat) returns (last: Node)
      requires Valid() && i < |heads| && heads[i] != null
      ensures chains[i] != [] && last == chains[i][|chains[i]| - 1]
    {
      assert Chain(i);
      ghost var k := 0;
      last := heads[i];
      while last.next != null
        invariant k < |chains[i]| && last == chains[i][k]
        decreases |chains[i]| - k
      {
        last, k := last.next, k + 1;
      }
    }

    /** A new value behind the others. */
    method Append(i: nat, item: Item)
      requires Valid() && i < |heads|
      modifies this, live
      ensures Valid() && |heads| == old(|heads|) && freed == old(freed) && fresh(live - old(live))
      ensures Items(chains[i]) == old(Items(chains[i])) + [item]
      ensures forall j :: 0 <= j < |heads| && j != i ==> chains[j] == old(chains[j])
    {
      assert Chain(i);
      var node := new Node(item);
      if heads[i] == null {
        heads := heads[i := node];
      } else {
        var last := LastNode(i);
        last.next := node;
      }
      chains := chains[i := chains[i] + [node]];
      live := live + {node};
      forall j | 0 <= j < |chains| ensures Chain(j) {
        assert old(Chain(j));
      }
    }

    /** free() on every node of a list; each one is still allocated when its successor is read. */
    method FreeAll(head: Node?, ghost chain: seq<Node>)
      requires head == At(chain, 0) && Linked(chain) && (forall k :: 0 <= k < |chain| ==> chain[k] in live)
      requires live !! freed && forall a, b :: 0 <= a < b < |chain| ==> chain[a] != chain[b]
      modifies this`freed, this`live
      ensures freed == old(freed) + (set n | n in chain) && live == old(live) - (set n | n in chain)
    {
      var tmp := head;
      ghost var k := 0;
      assert chain[..0] == [];
      while tmp != null
        invariant k <= |chain| && tmp == At(chain, k)
        invariant freed == old(freed) + (set n | n in chain[..k])
        invariant live == old(live) - (set n | n in chain[..k])
        decreases |chain| - k
      {
        NotFreedYet(chain, k);
        assert tmp in live;
        var next := tmp.next;
        freed, live := freed + {tmp}, live - {tmp};
        tmp, k := next, k + 1;
      }
      assert chain[..k] == chain;
    }

    /** The value "~": every node is freed once, and none of another list. */
    method Clear(i: nat)
      requires Valid() && i < |heads|
      modifies this
      ensures Valid() && |heads| == old(|heads|) && live <= old(live)
      ensures freed == old(freed) + (set n | n in old(chains[i])) && chains[i] == []
      ensures forall j :: 0 <= j < |heads| && j != i ==> chains[j] == old(chains[j])
    {
      assert Chain(i);
      FreeAll(heads[i], chains[i]);
      heads, chains := heads[i := null], chains[i := []];
      forall j | 0 <= j < |chains| ensures Chain(j) {
        assert old(Chain(j));
      }
    }

    lemma NotFreedYet(chain: seq<Node>, k: nat)
      requires k < |chain| && forall a, b :: 0 <= a < b < |chain| ==> chain[a] != chain[b]
      ensures chain[k] !in chain[..k] && chain[..k + 1] == chain[..k] + [chain[k]]
    {
    }
  }
}
