/** The bi-temporal long-term graph: the value the graph adapter keeps, and the
    adapter itself. A node carries queryable properties and, beside them, the whole
    record as a blob; invalidation rewrites the properties and leaves the blob. */
module GraphStore {
  import opened Common

  type Time = int
  type Id = string

  datatype Polarity = Positive | Negative
  datatype State = Active | Archived | Superseded | Quarantined | Deleted

  /** A memory record. An absent subject, predicate, object or source id is "". */
  datatype Item = Item(
    id: Id, ns: string, content: string,
    subj: string, pred: string, obj: string, polarity: Polarity,
    state: State, validAt: Option<Time>, invalidAt: Option<Time>,
    createdAt: Time, updatedAt: Time, accessCount: nat,
    derivedFrom: Id, inferred: bool)

  datatype Key = Key(ns: string, id: Id)

  datatype Props = Props(
    subj: string, pred: string, obj: string, polarity: Polarity,
    state: State, validAt: Option<Time>, invalidAt: Option<Time>)

  datatype Node = Node(props: Props, blob: Item)

  datatype Edge = Edge(createdAt: Time, reason: string)

  /** `supersededBy` maps a (loser, winner) pair to its edge. */
  datatype Graph = Graph(nodes: map<Key, Node>, supersededBy: map<(Key, Key), Edge>)

  function KeyOf(item: Item): Key { Key(item.ns, item.id) }

  function ToStore(item: Item): Props
  {
    Props(item.subj, item.pred, item.obj, item.polarity, item.state, item.validAt, item.invalidAt)
  }

  function Upsert(g: Graph, item: Item): Graph
  {
    g.(nodes := g.nodes[KeyOf(item) := Node(ToStore(item), item)])
  }

  function Retire(n: Node, at: Time): Node
  {
    n.(props := n.props.(state := Superseded, invalidAt := Some(at)))
  }

  function Invalidate(g: Graph, ns: string, loser: Id, winner: Id, at: Time, reason: string): Graph
  {
    var l, w := Key(ns, loser), Key(ns, winner);
    if l !in g.nodes then g
    else
      var nodes := g.nodes[l := Retire(g.nodes[l], at)];
      Graph(nodes, if w in nodes then g.supersededBy[(l, w) := Edge(at, reason)] else g.supersededBy)
  }

  /** Present-tense visibility: active, and not yet past its end. */
  predicate Visible(p: Props, now: Time)
  {
    p.state == Active && (p.invalidAt == None || p.invalidAt.value > now)
  }

  /** As-of visibility: the interval [validAt, invalidAt) holds `at`. */
  predicate HeldAt(p: Props, at: Time)
  {
    p.validAt.Some? && p.validAt.value <= at && (p.invalidAt == None || p.invalidAt.value > at)
  }

  /** The triple-less address of a fact: a namespace, a subject and a predicate. */
  datatype Slot = Slot(ns: string, subj: string, pred: string)

  function SlotOf(item: Item): Slot { Slot(item.ns, item.subj, item.pred) }

  predicate Member(g: Graph, slot: Slot, k: Key)
  {
    k in g.nodes && k.ns == slot.ns &&
    g.nodes[k].props.subj == slot.subj && g.nodes[k].props.pred == slot.pred
  }

  predicate Conflicts(g: Graph, slot: Slot, now: Time, k: Key)
  {
    Member(g, slot, k) && Visible(g.nodes[k].props, now)
  }

  /** `hits` lists the conflicting facts of `slot`, each once, in whatever order the
      store returns them. */
  ghost predicate IsConflictList(g: Graph, slot: Slot, now: Time, hits: seq<Item>)
  {
    (forall i, j :: 0 <= i < j < |hits| ==> hits[i].id != hits[j].id) &&
    (forall h :: h in hits ==> Conflicts(g, slot, now, Key(slot.ns, h.id)) && g.nodes[Key(slot.ns, h.id)].blob == h) &&
    (forall k :: Conflicts(g, slot, now, k) ==> g.nodes[k].blob in hits)
  }

  /** The facts of a slot that an as-of read at `at` returns. */
  function AsOf(g: Graph, slot: Slot, at: Time): (r: set<Key>)
    ensures forall k :: k in r <==> Member(g, slot, k) && HeldAt(g.nodes[k].props, at)
  {
    set k | k in g.nodes && Member(g, slot, k) && HeldAt(g.nodes[k].props, at)
  }

  /** The blob carries the node's key, and an active node's properties are those of its blob. */
  predicate NodeCoherent(k: Key, n: Node)
  {
    KeyOf(n.blob) == k && (n.props.state == Active ==> n.props == ToStore(n.blob))
  }

  ghost predicate Coherent(g: Graph)
  {
    forall k :: k in g.nodes ==> NodeCoherent(k, g.nodes[k])
  }

  lemma UpsertCoherent(g: Graph, item: Item)
    requires Coherent(g)
    ensures Coherent(Upsert(g, item))
  {
    assert NodeCoherent(KeyOf(item), Node(ToStore(item), item));
  }

  lemma InvalidateCoherent(g: Graph, ns: string, loser: Id, winner: Id, at: Time, reason: string)
    requires Coherent(g)
    ensures Coherent(Invalidate(g, ns, loser, winner, at, reason))
  {
    var l := Key(ns, loser);
    if l in g.nodes {
      assert NodeCoherent(l, g.nodes[l]);
      assert NodeCoherent(l, Retire(g.nodes[l], at));
    }
  }

  /** The graph adapter. Coherence is its invariant: both writes keep it. */
  class FalkorLtm {
    var nodes: map<Key, Node>
    var supersededBy: map<(Key, Key), Edge>

    constructor ()
      ensures Valid() && Value() == Graph(map[], map[])
    {
      nodes, supersededBy := map[], map[];
    }

    ghost function Value(): Graph
      reads this
    {
      Graph(nodes, supersededBy)
    }

    ghost predicate Valid()
      reads this
    {
      Coherent(Value())
    }

    method UpsertFact(item: Item)
      requires Valid()
      modifies this
      ensures Valid() && Value() == Upsert(old(Value()), item)
    {
      UpsertCoherent(Value(), item);
      nodes := nodes[KeyOf(item) := Node(ToStore(item), item)];
    }

    method InvalidateFact(ns: string, loser: Id, winner: Id, at: Time, reason: string)
      requires Valid()
      modifies this
      ensures Valid() && Value() == Invalidate(old(Value()), ns, loser, winner, at, reason)
    {
      InvalidateCoherent(Value(), ns, loser, winner, at, reason);
      var l, w := Key(ns, loser), Key(ns, winner);
      if l in nodes {
        nodes := nodes[l := Retire(nodes[l], at)];
        if w in nodes {
          supersededBy := supersededBy[(l, w) := Edge(at, reason)];
        }
      }
    }

    /** The conflict access pattern: every visible fact of the slot once, in no promised order. */
    method FindConflicts(slot: Slot, now: Time) returns (hits: seq<Item>)
      requires Valid()
      ensures IsConflictList(Value(), slot, now, hits)
    {
      hits := [];
      var todo := nodes.Keys;
      while todo != {}
        invariant todo <= nodes.Keys
        invariant forall i, j :: 0 <= i < j < |hits| ==> hits[i].id != hits[j].id
        invariant forall h :: h in hits ==>
          Conflicts(Value(), slot, now, Key(slot.ns, h.id)) && nodes[Key(slot.ns, h.id)].blob == h &&
          Key(slot.ns, h.id) !in todo
        invariant forall k :: Conflicts(Value(), slot, now, k) && k !in todo ==> nodes[k].blob in hits
        decreases |todo|
      {
        var k :| k in todo;
        todo := todo - {k};
        var p := nodes[k].props;
        if k.ns == slot.ns && p.subj == slot.subj && p.pred == slot.pred && Visible(p, now) {
          hits := hits + [nodes[k].blob];
        }
      }
    }

    /** The as-of read, of one subject or of all: exactly the facts held at `at`, in every slot asked for. */
    method FactsAt(ns: string, subj: Option<string>, at: Time) returns (found: map<Key, Item>)
      ensures forall k :: k in found <==>
        k in nodes && k.ns == ns && (subj.None? || nodes[k].props.subj == subj.value) && HeldAt(nodes[k].props, at)
      ensures forall k :: k in found ==> found[k] == nodes[k].blob
      ensures forall s, p, k :: (subj.None? || subj.value == s) && k in AsOf(Value(), Slot(ns, s, p), at) ==> k in found
    {
      found := map k | k in nodes && k.ns == ns && (subj.None? || nodes[k].props.subj == subj.value) &&
                       HeldAt(nodes[k].props, at)
                 :: nodes[k].blob;
    }
  }
}
