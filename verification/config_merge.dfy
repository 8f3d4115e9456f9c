/** Building Geyser's configuration: Go's mergeMap and buildConfigMap (go/config.go) on maps that
    live on the heap and share structure, and Rust's merge_into and build_config
    (rust/src/config.rs) on owned mappings. */
module ConfigMerge {
  import opened ConfigTree

  // ---------------------------------------------------------------- Go: maps on the heap

  datatype Value = Scalar(text: string) | Ref(m: GoMap)

  /** A map[string]any. `repr` contains the map and every map reachable from it. */
  class GoMap {
    var entries: map<string, Value>
    ghost var repr: set<GoMap>

    /** Acyclic; submaps may be shared. */
    ghost predicate Valid()
      reads this, repr
      ensures Valid() ==> this in repr
      decreases repr
    {
      && this in repr
      && forall k :: k in entries && entries[k].Ref? ==>
           var m := entries[k].m; m in repr && m.repr <= repr && this !in m.repr && m.Valid()
    }

    /** No two submaps share anything: a tree, as parsing produces. */
    ghost predicate Unshared()
      requires Valid()
      reads this, repr
      decreases repr
    {
      && (forall k :: k in entries && entries[k].Ref? ==> entries[k].m.Unshared())
      && forall j, k :: j in entries && k in entries && j != k && entries[j].Ref? && entries[k].Ref? ==>
           entries[j].m.repr !! entries[k].m.repr
    }

    ghost function Tree(): (t: ConfigTree.Tree)
      requires Valid()
      reads this, repr
      ensures t.Node? && t.entries.Keys == entries.Keys
      decreases repr
    {
      Node(map k | k in entries :: match entries[k] case Scalar(t) => Leaf(t) case Ref(m) => m.Tree())
    }

    constructor ()
      ensures Valid() && Unshared() && repr == {this} && Tree() == Node(map[])
    {
      entries := map[];
      repr := {this};
    }
  }

  ghost function TreeOf(v: Value): ConfigTree.Tree
    requires v.Ref? ==> v.m.Valid()
    reads if v.Ref? then {v.m} + v.m.repr else {}
  {
    match v case Scalar(t) => Leaf(t) case Ref(m) => m.Tree()
  }

  /** What a valid map says about the maps it refers to. */
  lemma Submaps(m: GoMap)
    requires m.Valid()
    ensures m in m.repr && m.Tree().Node? && m.Tree().entries.Keys == m.entries.Keys
    ensures forall k :: k in m.entries && m.entries[k].Ref? ==>
      var sub := m.entries[k].m; sub in m.repr && sub.repr <= m.repr && m !in sub.repr && sub.Valid()
    ensures forall k :: k in m.entries ==> m.Tree().entries[k] == TreeOf(m.entries[k])
  {
  }

  lemma UnsharedSubmaps(m: GoMap)
    requires m.Valid() && m.Unshared()
    ensures forall k :: k in m.entries && m.entries[k].Ref? ==> m.entries[k].m.Valid() && m.entries[k].m.Unshared()
    ensures forall j, k :: j in m.entries && k in m.entries && j != k && m.entries[j].Ref? && m.entries[k].Ref? ==>
      m.entries[j].m.repr !! m.entries[k].m.repr
  {
  }

  /** ... and back: from its submaps to the map. */
  lemma Assembled(m: GoMap, trees: map<string, ConfigTree.Tree>)
    requires m in m.repr && trees.Keys == m.entries.Keys
    requires forall k :: k in m.entries && m.entries[k].Ref? ==>
      var sub := m.entries[k].m; sub in m.repr && sub.repr <= m.repr && m !in sub.repr && sub.Valid()
    requires forall k :: k in m.entries ==> trees[k] == TreeOf(m.entries[k])
    ensures m.Valid() && m.Tree() == Node(trees)
  {
    assert m.Tree().entries == trees;
  }

  /** What a merge started from: the entries of both maps, the trees under them, the heap of each
      submap of the destination (`own`) and of the source (`lent`), and whether the source was a
      tree. */
  datatype Start = Start(
    E: map<string, Value>, S: map<string, Value>,
    dt: map<string, ConfigTree.Tree>, st: map<string, ConfigTree.Tree>,
    own: map<string, set<GoMap>>, lent: map<string, set<GoMap>>, D: set<GoMap>, SR: set<GoMap>, tree: bool)

  ghost predicate Coherent(p: Start) {
    && p.dt.Keys == p.E.Keys && p.st.Keys == p.S.Keys
    && p.own.Keys == (set k | k in p.E && p.E[k].Ref?)
    && (forall k :: k in p.own ==> p.own[k] <= p.D)
    && (forall j, k :: j in p.own && k in p.own && j != k ==> p.own[j] !! p.own[k])
    && (forall k :: k in p.E && p.E[k].Scalar? ==> p.dt[k] == Leaf(p.E[k].text))
    && p.lent.Keys == (set k | k in p.S && p.S[k].Ref?)
    && (forall k :: k in p.lent ==> p.lent[k] <= p.SR)
    && (p.tree ==> forall j, k :: j in p.lent && k in p.lent && j != k ==> p.lent[j] !! p.lent[k])
    && p.D !! p.SR
  }

  /** The source's value for a key is what it was. */
  ghost predicate SourceAt(p: Start, k: string)
    requires Coherent(p) && k in p.S
    reads p.SR
  {
    && (p.S[k].Ref? ==>
          var m := p.S[k].m;
          m in p.lent[k] && m.repr == p.lent[k] && m.Valid() && (p.tree ==> m.Unshared()))
    && TreeOf(p.S[k]) == p.st[k]
  }

  /** Both sides have a mapping under the key. */
  predicate Both(p: Start, k: string) {
    k in p.E && k in p.S && p.E[k].Ref? && p.S[k].Ref?
  }

  /** The destination's own submap under a key: untouched, or merged. It never shares a heap with
      another key's. */
  ghost predicate SubmapAt(p: Start, k: string, merged: bool)
    requires Coherent(p)
    reads (if k in p.own then p.own[k] else {}) + p.SR
  {
    k in p.own ==>
      var m := p.E[k].m;
      && m in p.own[k] && m.repr <= p.own[k] + (if Both(p, k) then p.lent[k] else {}) && m.Valid()
      && (!merged ==> m.repr == p.own[k] && m.Unshared() && m.Tree() == p.dt[k])
      && (merged && Both(p, k) ==> m.Tree() == Merge(p.dt[k], p.st[k]) && (p.tree ==> m.Unshared()))
  }

  /** The destination's entry for a key, before and after the loop has reached it. */
  function EntryFor(p: Start, k: string, merged: bool): Value
    requires k in p.E || (k in p.S && merged)
  {
    if merged && k in p.S && !Both(p, k) then p.S[k] else if k in p.E then p.E[k] else p.S[k]
  }

  /** The loop of mergeMap with the keys `rest` still to come. */
  ghost predicate Merging(dst: GoMap, src: GoMap, p: Start, rest: set<string>)
    reads dst, src, p.D, p.SR
  {
    && Coherent(p) && rest <= p.S.Keys
    && dst.repr == p.D && dst in p.D && (forall k :: k in p.own ==> dst !in p.own[k])
    && src in p.SR && src.entries == p.S
    && dst.entries.Keys == p.E.Keys + (p.S.Keys - rest)
    && (forall k :: k in p.S ==> SourceAt(p, k))
    && (forall k :: k in dst.entries ==> dst.entries[k] == EntryFor(p, k, k in p.S && k !in rest))
    && (forall k :: k in p.own ==> SubmapAt(p, k, k in p.S && k !in rest))
  }

  /** One key further: the facts about every other key stand, and those about k are new. */
  lemma Advanced(dst: GoMap, src: GoMap, p: Start, rest: set<string>, k: string)
    requires Coherent(p) && rest <= p.S.Keys && k in rest
    requires dst.repr == p.D && dst in p.D && (forall j :: j in p.own ==> dst !in p.own[j])
    requires src in p.SR && src.entries == p.S
    requires dst.entries.Keys == p.E.Keys + (p.S.Keys - rest) + {k}
    requires forall j :: j in p.S ==> SourceAt(p, j)
    requires forall j :: j in dst.entries && j != k ==> dst.entries[j] == EntryFor(p, j, j in p.S && j !in rest)
    requires forall j :: j in p.own && j != k ==> SubmapAt(p, j, j in p.S && j !in rest)
    requires dst.entries[k] == EntryFor(p, k, true) && (k in p.own ==> SubmapAt(p, k, true))
    ensures Merging(dst, src, p, rest - {k})
  {
    hide SourceAt, SubmapAt, EntryFor;
    assert p.E.Keys + (p.S.Keys - rest) + {k} == p.E.Keys + (p.S.Keys - (rest - {k}));
  }

  /** mergeMap's recursive branch. */
  method Descend(dst: GoMap, src: GoMap, k: string, ghost rest: set<string>, ghost p: Start)
    requires Merging(dst, src, p, rest) && k in rest
    requires k in dst.entries && dst.entries[k].Ref? && k in src.entries && src.entries[k].Ref?
    modifies if k in p.own then p.own[k] else {}
    ensures Merging(dst, src, p, rest - {k})
    decreases p.D, 0
  {
    hide GoMap.Valid, GoMap.Unshared, GoMap.Tree, Merging;
    Facts(dst, src, p, rest);
    ghost var sub := p.E[k].m;
    assert SubmapAt(p, k, false) && SourceAt(p, k);
    assert dst.entries[k].m == sub && sub.Valid() && sub.Unshared() && sub.repr == p.own[k] && sub.Tree() == p.dt[k];
    assert src.entries[k].m.Valid() && src.entries[k].m.repr == p.lent[k] <= p.SR && src.entries[k].m.Tree() == p.st[k];
    assert p.tree ==> src.entries[k].m.Unshared();
    hide SubmapAt, SourceAt;
    MergeMap(dst.entries[k].m, src.entries[k].m);
    SubmapMerged(p, k);
    forall j | j in p.S ensures SourceAt(p, j) { assert old(SourceAt(p, j)); }
    forall j | j in p.own && j != k ensures SubmapAt(p, j, j in p.S && j !in rest) {
      assert p.own[j] !! p.own[k];
      assert old(SubmapAt(p, j, j in p.S && j !in rest));
    }
    Advanced(dst, src, p, rest, k);
  }

  lemma Facts(dst: GoMap, src: GoMap, p: Start, rest: set<string>)
    requires Merging(dst, src, p, rest)
    ensures Coherent(p) && rest <= p.S.Keys
    ensures dst.repr == p.D && dst in p.D && (forall k :: k in p.own ==> dst !in p.own[k])
    ensures src in p.SR && src.entries == p.S
    ensures dst.entries.Keys == p.E.Keys + (p.S.Keys - rest)
    ensures forall k :: k in p.S ==> SourceAt(p, k)
    ensures forall k :: k in dst.entries ==> dst.entries[k] == EntryFor(p, k, k in p.S && k !in rest)
    ensures forall k :: k in p.own ==> SubmapAt(p, k, k in p.S && k !in rest)
  {
  }

  lemma SubmapMerged(p: Start, k: string)
    requires Coherent(p) && k in p.own && Both(p, k)
    requires var m := p.E[k].m;
      && m in p.own[k] && m.repr <= p.own[k] + p.lent[k] && m.Valid() && m.Tree() == Merge(p.dt[k], p.st[k])
      && (p.tree ==> m.Unshared())
    ensures SubmapAt(p, k, true)
  {
  }

  /** A submap that is not merged into stands either way. */
  lemma SubmapReplaced(p: Start, k: string)
    requires Coherent(p) && !Both(p, k) && (k in p.own ==> SubmapAt(p, k, false))
    ensures k in p.own ==> SubmapAt(p, k, true)
  {
  }

  /** dst[k] = v, which disturbs no submap. */
  method Put(dst: GoMap, k: string, v: Value, ghost p: Start)
    requires Coherent(p) && dst.repr !! p.SR && dst in dst.repr
    requires forall j :: j in p.own ==> dst !in p.own[j]
    modifies dst`entries
    ensures dst.entries == old(dst.entries)[k := v]
    ensures forall j :: j in p.S && old(SourceAt(p, j)) ==> SourceAt(p, j)
    ensures forall j, merged :: j in p.own && old(SubmapAt(p, j, merged)) ==> SubmapAt(p, j, merged)
  {
    hide SubmapAt, SourceAt;
    dst.entries := dst.entries[k := v];
  }

  /** mergeMap's other branch: the source's value replaces whatever was there. */
  method Store(dst: GoMap, src: GoMap, k: string, ghost rest: set<string>, ghost p: Start)
    requires Merging(dst, src, p, rest) && k in rest && k in src.entries
    requires !(k in dst.entries && dst.entries[k].Ref? && src.entries[k].Ref?)
    modifies dst`entries
    ensures Merging(dst, src, p, rest - {k})
  {
    hide GoMap.Valid, GoMap.Unshared, GoMap.Tree, Merging;
    Facts(dst, src, p, rest);
    SubmapReplaced(p, k);
    hide SubmapAt, SourceAt;
    Put(dst, k, src.entries[k], p);
    Advanced(dst, src, p, rest, k);
  }

  /** Before the first key. */
  ghost function Starting(dst: GoMap, src: GoMap): (p: Start)
    requires dst.Valid() && dst.Unshared() && src.Valid() && dst.repr !! src.repr
    reads dst, src, dst.repr, src.repr
    ensures p == Start(dst.entries, src.entries, dst.Tree().entries, src.Tree().entries, p.own, p.lent,
                       dst.repr, src.repr, src.Unshared())
    ensures Merging(dst, src, p, src.entries.Keys)
  {
    var own := map k | k in dst.entries && dst.entries[k].Ref? :: dst.entries[k].m.repr;
    var lent := map k | k in src.entries && src.entries[k].Ref? :: src.entries[k].m.repr;
    var p := Start(dst.entries, src.entries, dst.Tree().entries, src.Tree().entries, own, lent, dst.repr, src.repr, src.Unshared());
    StartingFrom(dst, src, p);
    p
  }

  lemma StartingFrom(dst: GoMap, src: GoMap, p: Start)
    requires dst.Valid() && dst.Unshared() && src.Valid() && dst.repr !! src.repr
    requires p.own == map k | k in dst.entries && dst.entries[k].Ref? :: dst.entries[k].m.repr
    requires p.lent == map k | k in src.entries && src.entries[k].Ref? :: src.entries[k].m.repr
    requires p == Start(dst.entries, src.entries, dst.Tree().entries, src.Tree().entries, p.own, p.lent,
                        dst.repr, src.repr, src.Unshared())
    ensures Merging(dst, src, p, src.entries.Keys)
  {
    hide GoMap.Valid, GoMap.Unshared, GoMap.Tree;
    Submaps(dst);
    Submaps(src);
    UnsharedSubmaps(dst);
    if src.Unshared() { UnsharedSubmaps(src); }
    assert Coherent(p);
    forall k | k in p.S ensures SourceAt(p, k) {}
    forall k | k in p.own ensures SubmapAt(p, k, false) {}
  }

  /** After the last key: the destination's heap now includes the source's. */
  method Seal(dst: GoMap, src: GoMap, ghost p: Start)
    requires Merging(dst, src, p, {})
    modifies dst`repr
    ensures dst.Valid() && dst.repr == p.D + p.SR
    ensures dst.Tree() == Merge(Node(p.dt), Node(p.st))
    ensures p.tree ==> dst.Unshared()
  {
    hide GoMap.Valid, GoMap.Unshared, GoMap.Tree, SubmapAt, SourceAt;
    dst.repr := p.D + p.SR;
    assert Sealed(dst, p);
    SealedTree(dst, p);
    if p.tree { SealedUnshared(dst, p); }
  }

  ghost predicate Sealed(dst: GoMap, p: Start)
    reads dst, p.D, p.SR
  {
    && Coherent(p) && dst.repr == p.D + p.SR && dst in p.D && (forall k :: k in p.own ==> dst !in p.own[k])
    && dst.entries.Keys == p.E.Keys + p.S.Keys
    && (forall k :: k in p.S ==> SourceAt(p, k))
    && (forall k :: k in dst.entries ==> dst.entries[k] == EntryFor(p, k, k in p.S))
    && (forall k :: k in p.own ==> SubmapAt(p, k, k in p.S))
  }

  lemma SealedTree(dst: GoMap, p: Start)
    requires Sealed(dst, p)
    ensures dst.Valid() && dst.Tree() == Merge(Node(p.dt), Node(p.st))
  {
    hide GoMap.Valid, GoMap.Unshared, GoMap.Tree;
    var trees := Merge(Node(p.dt), Node(p.st)).entries;
    forall k | k in dst.entries
      ensures dst.entries[k].Ref? ==>
        var sub := dst.entries[k].m; sub in dst.repr && sub.repr <= dst.repr && dst !in sub.repr && sub.Valid()
      ensures trees[k] == TreeOf(dst.entries[k])
    {
      assert trees[k] == if k !in p.st then p.dt[k] else if k !in p.dt then p.st[k] else Merge(p.dt[k], p.st[k]);
      if k in p.own { assert SubmapAt(p, k, k in p.S); }
      if k in p.S { assert SourceAt(p, k); }
    }
    Assembled(dst, trees);
  }

  lemma SealedUnshared(dst: GoMap, p: Start)
    requires Sealed(dst, p) && p.tree && dst.Valid()
    ensures dst.Unshared()
  {
    hide GoMap.Valid, GoMap.Unshared, GoMap.Tree;
    forall k | k in dst.entries && dst.entries[k].Ref?
      ensures var sub := dst.entries[k].m; sub.Valid() && sub.Unshared() && sub.repr <= Share(p, k)
    {
      if k in p.own { assert SubmapAt(p, k, k in p.S); }
      if k in p.S { assert SourceAt(p, k); }
    }
    SharesApart(p);
    AssembledUnshared(dst);
  }

  /** The heap an entry of the merged map may lie in. */
  function Share(p: Start, k: string): set<GoMap> {
    (if k in p.own then p.own[k] else {}) + (if k in p.lent then p.lent[k] else {})
  }

  lemma SharesApart(p: Start)
    requires Coherent(p) && p.tree
    ensures forall j, k :: j != k ==> Share(p, j) !! Share(p, k)
  {
    forall j, k | j != k ensures Share(p, j) !! Share(p, k) {
      if j in p.own && k in p.lent { assert p.own[j] <= p.D && p.lent[k] <= p.SR; }
      if k in p.own && j in p.lent { assert p.own[k] <= p.D && p.lent[j] <= p.SR; }
    }
  }

  lemma AssembledUnshared(m: GoMap)
    requires m.Valid()
    requires forall k :: k in m.entries && m.entries[k].Ref? ==> m.entries[k].m.Valid() && m.entries[k].m.Unshared()
    requires forall j, k :: j in m.entries && k in m.entries && j != k && m.entries[j].Ref? && m.entries[k].Ref? ==>
      m.entries[j].m.repr !! m.entries[k].m.repr
    ensures m.Unshared()
  {
  }

  lemma OwnWithin(dst: GoMap, src: GoMap, p: Start, rest: set<string>, k: string)
    requires Merging(dst, src, p, rest) && k in rest && k in dst.entries && dst.entries[k].Ref?
    ensures k in p.own && p.own[k] <= p.D == dst.repr
  {
  }

  /** mergeMap: writes only into maps of dst, which it may leave referring to maps of src. */
  method MergeMap(dst: GoMap, src: GoMap)
    requires dst.Valid() && dst.Unshared() && src.Valid() && dst.repr !! src.repr
    modifies dst.repr
    ensures dst.Valid() && dst.repr <= old(dst.repr) + src.repr
    ensures dst.Tree() == Merge(old(dst.Tree()), old(src.Tree()))
    ensures old(src.Unshared()) ==> dst.Unshared()
    decreases dst.repr, 1
  {
    hide Merging, GoMap.Valid, GoMap.Unshared, GoMap.Tree;
    ghost var p := Starting(dst, src);
    var rest := src.entries.Keys;
    while rest != {}
      invariant Merging(dst, src, p, rest) && rest <= src.entries.Keys
      decreases rest
    {
      var k :| k in rest;
      if k in dst.entries && dst.entries[k].Ref? && src.entries[k].Ref? {
        OwnWithin(dst, src, p, rest, k);
        Descend(dst, src, k, rest, p);
      } else {
        Store(dst, src, k, rest, p);
      }
      rest := rest - {k};
    }
    Seal(dst, src, p);
  }


  // ---------------------------------------------------------------- Go: buildConfigMap

  /** A map literal without nested maps. */
  method FlatMap(values: map<string, string>) returns (m: GoMap)
    ensures fresh(m) && m.repr == {m} && m.Valid() && m.Unshared()
    ensures m.Tree() == Flat(values)
  {
    m := new GoMap();
    m.entries := map k | k in values :: Scalar(values[k]);
    assert m.Tree().entries == map k | k in values :: Leaf(values[k]);
  }

  /** m[key] = sub, for a new key. */
  method Attach(m: GoMap, key: string, sub: GoMap, ghost tree: ConfigTree.Tree, ghost subtree: ConfigTree.Tree)
    requires m.Valid() && m.Unshared() && sub.Valid() && sub.Unshared() && m.repr !! sub.repr
    requires m.Tree() == tree && sub.Tree() == subtree && key !in tree.entries
    modifies m
    ensures m.Valid() && m.Unshared() && m.repr == old(m.repr) + sub.repr
    ensures m.Tree() == Node(tree.entries[key := subtree])
  {
    hide GoMap.Valid, GoMap.Unshared, GoMap.Tree;
    Submaps(m);
    UnsharedSubmaps(m);
    ghost var trees := tree.entries[key := subtree];
    m.entries := m.entries[key := Ref(sub)];
    m.repr := m.repr + sub.repr;
    assert forall k :: k in old(m.entries) ==> trees[k] == TreeOf(m.entries[k]);
    Assembled(m, trees);
    AssembledUnshared(m);
  }

  /** The literal of typed options, one key of the outermost map after the other. */
  method TypedMap(o: Knobs) returns (m: GoMap)
    ensures fresh(m.repr) && m.Valid() && m.Unshared() && m.Tree() == GoTyped(o)
  {
    hide GoMap.Valid, GoMap.Unshared, GoMap.Tree, Flat, Bedrock, GoJava, Haproxy;
    var advanced := NestedMap("java", Haproxy(o));
    m := EndpointsMap(o);
    Attach(m, "advanced", advanced, Node(map["bedrock" := Flat(Bedrock(o)), "java" := Flat(GoJava(o))]),
           Node(map["java" := Flat(Haproxy(o))]));
  }

  method EndpointsMap(o: Knobs) returns (m: GoMap)
    ensures fresh(m.repr) && m.Valid() && m.Unshared()
    ensures m.Tree() == Node(map["bedrock" := Flat(Bedrock(o)), "java" := Flat(GoJava(o))])
  {
    hide GoMap.Valid, GoMap.Unshared, GoMap.Tree, Flat, Bedrock, GoJava;
    var java := FlatMap(GoJava(o));
    m := NestedMap("bedrock", Bedrock(o));
    Attach(m, "java", java, Node(map["bedrock" := Flat(Bedrock(o))]), Flat(GoJava(o)));
  }

  method NestedMap(key: string, values: map<string, string>) returns (m: GoMap)
    ensures fresh(m.repr) && m.Valid() && m.Unshared() && m.Tree() == Node(map[key := Flat(values)])
  {
    hide GoMap.Valid, GoMap.Unshared, GoMap.Tree, Flat;
    var sub := FlatMap(values);
    m := new GoMap();
    Attach(m, key, sub, Node(map[]), Flat(values));
  }

  /** buildConfigMap, given the map the baseline document parsed to. It writes into no map of the
      overrides, although its result may refer to them. */
  method BuildConfigMap(cfg: GoMap, o: Knobs, overrides: GoMap)
    requires cfg.Valid() && cfg.Unshared() && overrides.Valid() && cfg.repr !! overrides.repr
    modifies cfg.repr
    ensures cfg.Valid() && cfg.Tree() == Rendered(old(cfg.Tree()), GoTyped(o), o.floodgate, old(overrides.Tree()))
    ensures unchanged(overrides.repr)
  {
    hide GoMap.Valid, GoMap.Unshared, GoMap.Tree, GoTyped;
    ApplyTyped(cfg, o, overrides.repr);
    if |overrides.entries| > 0 {
      MergeMap(cfg, overrides);
    } else {
      assert overrides.Tree() == Node(map[]);
      MergeNothing(cfg.Tree());
    }
  }

  /** ... up to the point where the overrides come in. */
  method ApplyTyped(cfg: GoMap, o: Knobs, ghost others: set<GoMap>)
    requires cfg.Valid() && cfg.Unshared() && cfg.repr !! others
    modifies cfg.repr
    ensures cfg.Valid() && cfg.Unshared() && fresh(cfg.repr - old(cfg.repr)) && cfg.repr !! others
    ensures cfg.Tree() == WithKeyFile(Merge(old(cfg.Tree()), GoTyped(o)), o.floodgate)
  {
    hide GoMap.Valid, GoMap.Unshared, GoMap.Tree, GoTyped;
    var typed := TypedMap(o);
    MergeMap(cfg, typed);
    if o.floodgate { SetScalar(cfg, KEY_FILE, KEY_FILE_NAME); }
  }

  /** m[key] = text. */
  method SetScalar(m: GoMap, key: string, text: string)
    requires m.Valid() && m.Unshared()
    modifies m`entries
    ensures m.Valid() && m.Unshared() && m.Tree() == Node(old(m.Tree()).entries[key := Leaf(text)])
  {
    m.entries := m.entries[key := Scalar(text)];
    assert m.Tree().entries == old(m.Tree()).entries[key := Leaf(text)];
  }

  // ---------------------------------------------------------------- Rust: owned mappings

  /** merge_into: the mapping behind &mut dst, before and after. */
  method MergeInto(dst: map<string, ConfigTree.Tree>, src: map<string, ConfigTree.Tree>) returns (merged: map<string, ConfigTree.Tree>)
    ensures Node(merged) == Merge(Node(dst), Node(src))
    decreases Node(src)
  {
    merged := dst;
    var rest := src.Keys;
    while rest != {}
      invariant rest <= src.Keys
      invariant merged.Keys == dst.Keys + (src.Keys - rest)
      invariant forall k :: k in merged && (k !in src || k in rest) ==> merged[k] == dst[k]
      invariant forall k :: k in src && k !in rest ==> merged[k] == if k in dst then Merge(dst[k], src[k]) else src[k]
      decreases rest
    {
      var k :| k in rest;
      rest := rest - {k};
      if k in merged && merged[k].Node? && src[k].Node? {
        var sub := MergeInto(merged[k].entries, src[k].entries);
        merged := merged[k := Node(sub)];
      } else {
        merged := merged[k := src[k]];
      }
    }
    assert merged == Merge(Node(dst), Node(src)).entries;
  }

  /** build_config, given the mapping the baseline document parsed to. */
  method BuildConfig(baseline: map<string, ConfigTree.Tree>, o: Knobs, overrides: map<string, ConfigTree.Tree>)
    returns (cfg: map<string, ConfigTree.Tree>)
    ensures Node(cfg) == Rendered(Node(baseline), RustTyped(o), o.floodgate, Node(overrides))
  {
    cfg := MergeInto(baseline, RustTyped(o).entries);
    if o.floodgate { cfg := cfg[KEY_FILE := Leaf(KEY_FILE_NAME)]; }
    if overrides != map[] {
      cfg := MergeInto(cfg, overrides);
    } else {
      MergeNothing(Node(cfg));
    }
  }
}
