/** Configuration trees and the deep merge that both languages implement. */
module ConfigTree {
  /** A nested mapping; every value that is not a mapping is a leaf. */
  datatype Tree = Leaf(text: string) | Node(entries: map<string, Tree>)

  /** Where both sides have a mapping, merge key by key; otherwise the source wins. */
  function Merge(d: Tree, s: Tree): Tree
    decreases s
  {
    if d.Node? && s.Node? then
      Node(map k | k in d.entries.Keys + s.entries.Keys ::
        if k !in s.entries then d.entries[k]
        else if k !in d.entries then s.entries[k]
        else Merge(d.entries[k], s.entries[k]))
    else s
  }

  type Path = seq<string>

  /** What a path leads to: something, nothing, or a leaf before its end. */
  datatype Reach = Found(tree: Tree) | Missing | Blocked

  function Walk(t: Tree, path: Path): Reach {
    if path == [] then Found(t)
    else if t.Leaf? then Blocked
    else if path[0] in t.entries then Walk(t.entries[path[0]], path[1..])
    else Missing
  }

  /** The whole effect of a merge, path by path: a path the source does not mention leads where it
      led; a path it mentions leads to the source's value, merged into the old one if there was
      one; below a leaf of the source there is nothing. */
  lemma {:induction false} MergeAt(d: Tree, s: Tree, path: Path)
    ensures var merged := Walk(Merge(d, s), path);
      match Walk(s, path)
      case Found(v) => merged == Found(if Walk(d, path).Found? then Merge(Walk(d, path).tree, v) else v)
      case Missing => if Walk(d, path).Found? then merged == Walk(d, path) else !merged.Found?
      case Blocked => merged == Blocked
    decreases path
  {
    if path != [] && d.Node? && s.Node? && path[0] in s.entries && path[0] in d.entries {
      MergeAt(d.entries[path[0]], s.entries[path[0]], path[1..]);
    }
  }

  /** Every leaf of the source wins at its path. */
  lemma SourceLeafWins(d: Tree, s: Tree, path: Path)
    requires Walk(s, path).Found? && Walk(s, path).tree.Leaf?
    ensures Walk(Merge(d, s), path) == Walk(s, path)
  {
    MergeAt(d, s, path);
  }

  /** Every value of the destination that the source does not mention stays. */
  lemma UnmentionedStays(d: Tree, s: Tree, path: Path)
    requires Walk(s, path).Missing? && Walk(d, path).Found?
    ensures Walk(Merge(d, s), path) == Walk(d, path)
  {
    MergeAt(d, s, path);
  }

  /** Merging the same source again changes nothing. */
  lemma {:induction false} MergeTwice(d: Tree, s: Tree)
    ensures Merge(Merge(d, s), s) == Merge(d, s)
    decreases s
  {
    if s.Node? {
      forall k | k in s.entries ensures Merge(s.entries[k], s.entries[k]) == s.entries[k] {
        MergeSelf(s.entries[k]);
      }
      if d.Node? {
        forall k | k in d.entries && k in s.entries
          ensures Merge(Merge(d.entries[k], s.entries[k]), s.entries[k]) == Merge(d.entries[k], s.entries[k])
        {
          MergeTwice(d.entries[k], s.entries[k]);
        }
      }
    }
  }

  lemma {:induction false} MergeSelf(s: Tree)
    ensures Merge(s, s) == s
    decreases s
  {
    if s.Node? {
      forall k | k in s.entries ensures Merge(s.entries[k], s.entries[k]) == s.entries[k] {
        MergeSelf(s.entries[k]);
      }
    }
  }

  /** The order of grouping matters: a leaf in the middle cuts off what came before it. */
  lemma NotAssociative(k: string, x: string, y: string)
    requires x != y
    ensures var a, b, c := Node(map[k := Node(map[x := Leaf("")])]), Node(map[k := Leaf("")]), Node(map[k := Node(map[y := Leaf("")])]);
      Merge(Merge(a, b), c) != Merge(a, Merge(b, c))
  {
    var a, b, c := Node(map[k := Node(map[x := Leaf("")])]), Node(map[k := Leaf("")]), Node(map[k := Node(map[y := Leaf("")])]);
    MergeAt(Merge(a, b), c, [k, x]);
    MergeAt(a, b, [k, x]);
    MergeAt(a, Merge(b, c), [k, x]);
    MergeAt(b, c, [k, x]);
    assert [k, x][1..] == [x] && [x][1..] == [];
    assert Walk(a.entries[k], [x]) == Found(Leaf(""));
    assert Walk(a, [k, x]) == Found(Leaf("")) && Walk(b, [k, x]) == Blocked && Walk(c, [k, x]) == Missing;
    assert Merge(b, c) == c;
  }

  /** Where grouping does not matter. A leaf in the middle cuts off what came first, so what comes
      last must then cover it whole: overlaying it on what came first must change nothing. */
  ghost predicate Associates(a: Tree, b: Tree, c: Tree)
    decreases c
  {
    if a.Leaf? || c.Leaf? then true
    else if b.Leaf? then Merge(a, c) == c
    else forall k :: k in a.entries && k in b.entries && k in c.entries ==>
           Associates(a.entries[k], b.entries[k], c.entries[k])
  }

  lemma {:induction false} AssociativeIff(a: Tree, b: Tree, c: Tree)
    ensures Merge(Merge(a, b), c) == Merge(a, Merge(b, c)) <==> Associates(a, b, c)
    decreases c
  {
    if a.Node? && b.Node? && c.Node? {
      var left, right := Merge(Merge(a, b), c), Merge(a, Merge(b, c));
      forall k | k in a.entries && k in b.entries && k in c.entries
        ensures left.entries[k] == right.entries[k] <==> Associates(a.entries[k], b.entries[k], c.entries[k])
      {
        AssociativeIff(a.entries[k], b.entries[k], c.entries[k]);
      }
      assert left.entries.Keys == right.entries.Keys;
      forall k | k in left.entries && !(k in a.entries && k in b.entries && k in c.entries)
        ensures left.entries[k] == right.entries[k]
      {
      }
      if Associates(a, b, c) { assert left.entries == right.entries; }
    }
  }

  lemma MergeNothing(t: Tree)
    requires t.Node?
    ensures Merge(t, Node(map[])) == t
  {
    assert Merge(t, Node(map[])).entries == t.entries;
  }

  // ---------------------------------------------------------------- the rendered configuration

  /** The typed options, after host and port have been split and defaults filled in. */
  datatype Knobs = Knobs(
    listenAddress: string, listenPort: string, upstreamAddress: string, upstreamPort: string,
    motd1: string, motd2: string, authType: string, floodgate: bool)

  const KEY_FILE := "floodgate-key-file"
  const KEY_FILE_NAME := "key.bin"

  function Bool(b: bool): string {
    if b then "true" else "false"
  }

  function Flat(values: map<string, string>): Tree {
    Node(map k | k in values :: Leaf(values[k]))
  }

  function Bedrock(o: Knobs): map<string, string> {
    map["address" := o.listenAddress, "port" := o.listenPort, "motd1" := o.motd1, "motd2" := o.motd2,
        "server-name" := o.motd1]
  }

  function GoJava(o: Knobs): map<string, string> {
    map["address" := o.upstreamAddress, "port" := o.upstreamPort, "auth-type" := o.authType, "forward-hostname" := "true"]
  }

  function Haproxy(o: Knobs): map<string, string> {
    map["use-haproxy-protocol" := Bool(o.floodgate)]
  }

  function GoTyped(o: Knobs): Tree {
    Node(map["bedrock" := Flat(Bedrock(o)), "java" := Flat(GoJava(o)),
             "advanced" := Node(map["java" := Flat(Haproxy(o))])])
  }

  /** Rust still renders the proxy toggle under `java`. */
  function RustTyped(o: Knobs): Tree {
    Node(map["bedrock" := Flat(Bedrock(o)), "java" := Flat(GoJava(o)["use-proxy-protocol" := Bool(o.floodgate)])])
  }

  function WithKeyFile(t: Tree, floodgate: bool): Tree {
    if floodgate && t.Node? then Node(t.entries[KEY_FILE := Leaf(KEY_FILE_NAME)]) else t
  }

  /** Baseline, typed options on top, the key file, then the caller's overrides. */
  function Rendered(baseline: Tree, typed: Tree, floodgate: bool, overrides: Tree): Tree {
    Merge(WithKeyFile(Merge(baseline, typed), floodgate), overrides)
  }

  /** The caller's overrides beat everything; a typed option holds unless an override mentions its
      path; anything else is the baseline's. At the key file's path, unless overridden, Floodgate's
      file name comes before the typed options and the baseline. */
  lemma RenderedAt(baseline: Tree, typed: Tree, floodgate: bool, overrides: Tree, path: Path)
    requires baseline.Node? && typed.Node? && overrides.Node? && path != []
    ensures var rendered := Walk(Rendered(baseline, typed, floodgate, overrides), path);
      var named := floodgate && path[0] == KEY_FILE;
      && (Walk(overrides, path).Found? && Walk(overrides, path).tree.Leaf? ==> rendered == Walk(overrides, path))
      && (Walk(overrides, path).Missing? && named ==>
            if path == [KEY_FILE] then rendered == Found(Leaf(KEY_FILE_NAME)) else !rendered.Found?)
      && (Walk(overrides, path).Missing? && !named && Walk(typed, path).Found? && Walk(typed, path).tree.Leaf? ==>
            rendered == Walk(typed, path))
      && (Walk(overrides, path).Missing? && !named && Walk(typed, path).Missing? && Walk(baseline, path).Found? ==>
            rendered == Walk(baseline, path))
  {
    var keyed := WithKeyFile(Merge(baseline, typed), floodgate);
    if floodgate && path[0] == KEY_FILE {
      KeyFileNamed(Merge(baseline, typed), path);
    } else {
      KeyFileElsewhere(Merge(baseline, typed), floodgate, path);
    }
    hide Merge, WithKeyFile, Walk;
    if Walk(overrides, path).Found? && Walk(overrides, path).tree.Leaf? {
      SourceLeafWins(keyed, overrides, path);
    } else if Walk(overrides, path).Missing? && floodgate && path[0] == KEY_FILE {
      MergeAt(keyed, overrides, path);
    } else if Walk(overrides, path).Missing? && Walk(typed, path).Found? && Walk(typed, path).tree.Leaf? {
      SourceLeafWins(baseline, typed, path);
      UnmentionedStays(keyed, overrides, path);
    } else if Walk(overrides, path).Missing? && Walk(typed, path).Missing? && Walk(baseline, path).Found? {
      UnmentionedStays(baseline, typed, path);
      UnmentionedStays(keyed, overrides, path);
    }
  }

  lemma KeyFileNamed(t: Tree, path: Path)
    requires t.Node? && path != [] && path[0] == KEY_FILE
    ensures Walk(WithKeyFile(t, true), path) == if path == [KEY_FILE] then Found(Leaf(KEY_FILE_NAME)) else Blocked
  {
    assert path == [KEY_FILE] + path[1..];
  }

  lemma KeyFileElsewhere(t: Tree, floodgate: bool, path: Path)
    requires path != [] && (!floodgate || path[0] != KEY_FILE)
    ensures Walk(WithKeyFile(t, floodgate), path) == Walk(t, path)
    ensures t.Node? ==> WithKeyFile(t, floodgate).Node?
  {
  }

  const TOGGLE: Path := ["advanced", "java", "use-haproxy-protocol"]

  /** Go renders the proxy toggle where Geyser 2 reads it, whatever the baseline holds there. */
  lemma GoRendersHaproxyToggle(baseline: Tree, o: Knobs, overrides: Tree)
    requires baseline.Node? && overrides.Node?
    requires Walk(overrides, TOGGLE).Missing?
    ensures Walk(Rendered(baseline, GoTyped(o), o.floodgate, overrides), TOGGLE)
         == Found(Leaf(Bool(o.floodgate)))
  {
    var path := TOGGLE;
    var advanced := GoTyped(o).entries["advanced"];
    assert path[1..] == ["java", "use-haproxy-protocol"] && path[1..][1..] == ["use-haproxy-protocol"];
    assert Walk(Flat(Haproxy(o)), ["use-haproxy-protocol"]) == Found(Leaf(Bool(o.floodgate)));
    assert Walk(advanced, ["java", "use-haproxy-protocol"]) == Found(Leaf(Bool(o.floodgate)));
    assert Walk(GoTyped(o), path) == Found(Leaf(Bool(o.floodgate)));
    RenderedAt(baseline, GoTyped(o), o.floodgate, overrides, path);
  }

  /** Rust's typed options do not mention that path: there the baseline decides, whatever the
      options say. */
  lemma RustLeavesToggle(baseline: Tree, o: Knobs, overrides: Tree)
    requires baseline.Node? && overrides.Node? && Walk(overrides, TOGGLE).Missing?
    ensures var rendered := Walk(Rendered(baseline, RustTyped(o), o.floodgate, overrides), TOGGLE);
      if Walk(baseline, TOGGLE).Found? then rendered == Walk(baseline, TOGGLE) else !rendered.Found?
  {
    var typed := RustTyped(o);
    assert Walk(typed, TOGGLE) == Missing;
    hide Merge, WithKeyFile, Walk, RustTyped;
    MergeAt(baseline, typed, TOGGLE);
    KeyFileElsewhere(Merge(baseline, typed), o.floodgate, TOGGLE);
    MergeAt(WithKeyFile(Merge(baseline, typed), o.floodgate), overrides, TOGGLE);
  }

  /** Whether the two renderings agree on the toggle, for any overrides. Without an override,
      exactly when the baseline already holds the value the options ask for. */
  lemma ToggleAgreement(baseline: Tree, o: Knobs, overrides: Tree)
    requires baseline.Node? && overrides.Node?
    ensures Walk(Rendered(baseline, RustTyped(o), o.floodgate, overrides), TOGGLE)
              == Walk(Rendered(baseline, GoTyped(o), o.floodgate, overrides), TOGGLE)
       <==> match Walk(overrides, TOGGLE)
            case Missing => Walk(baseline, TOGGLE) == Found(Leaf(Bool(o.floodgate)))
            case Found(v) => Walk(baseline, TOGGLE).Found? ==> Merge(Walk(baseline, TOGGLE).tree, v) == v
            case Blocked => true
  {
    ToggleBefore(baseline, o);
    assert forall v :: Merge(Leaf(Bool(o.floodgate)), v) == v;
    if Walk(overrides, TOGGLE).Missing? {
      RustLeavesToggle(baseline, o, overrides);
      GoRendersHaproxyToggle(baseline, o, overrides);
    } else {
      hide Merge, WithKeyFile, Walk;
      MergeAt(WithKeyFile(Merge(baseline, RustTyped(o)), o.floodgate), overrides, TOGGLE);
      MergeAt(WithKeyFile(Merge(baseline, GoTyped(o)), o.floodgate), overrides, TOGGLE);
    }
  }

  /** The toggle before the overrides come in. */
  lemma ToggleBefore(baseline: Tree, o: Knobs)
    requires baseline.Node?
    ensures Walk(WithKeyFile(Merge(baseline, GoTyped(o)), o.floodgate), TOGGLE) == Found(Leaf(Bool(o.floodgate)))
    ensures var rust := Walk(WithKeyFile(Merge(baseline, RustTyped(o)), o.floodgate), TOGGLE);
      if Walk(baseline, TOGGLE).Found? then rust == Walk(baseline, TOGGLE) else !rust.Found?
  {
    MergeNothing(WithKeyFile(Merge(baseline, GoTyped(o)), o.floodgate));
    MergeNothing(WithKeyFile(Merge(baseline, RustTyped(o)), o.floodgate));
    RustLeavesToggle(baseline, o, Node(map[]));
    GoRendersHaproxyToggle(baseline, o, Node(map[]));
  }

  /** Rust's own baseline has no `advanced` section: with Floodgate on, Go renders the toggle as
      true and Rust renders none. */
  lemma RustOmitsToggle(baseline: Tree, o: Knobs)
    requires baseline.Node? && "advanced" !in baseline.entries && o.floodgate
    ensures Walk(Rendered(baseline, GoTyped(o), true, Node(map[])), TOGGLE) == Found(Leaf("true"))
    ensures !Walk(Rendered(baseline, RustTyped(o), true, Node(map[])), TOGGLE).Found?
  {
    RustLeavesToggle(baseline, o, Node(map[]));
    GoRendersHaproxyToggle(baseline, o, Node(map[]));
  }

  // ---------------------------------------------------------------- option by option

  /** Unless the overrides mention the path, it leads to this text. */
  predicate Shows(rendered: Tree, overrides: Tree, path: Path, text: string) {
    Walk(overrides, path).Missing? ==> Walk(rendered, path) == Found(Leaf(text))
  }

  lemma TypedLeafShows(baseline: Tree, typed: Tree, floodgate: bool, overrides: Tree, section: string, key: string, text: string)
    requires baseline.Node? && overrides.Node? && typed.Node? && section != KEY_FILE
    requires section in typed.entries && typed.entries[section].Node?
    requires key in typed.entries[section].entries && typed.entries[section].entries[key] == Leaf(text)
    ensures Shows(Rendered(baseline, typed, floodgate, overrides), overrides, [section, key], text)
  {
    var path := [section, key];
    assert path[1..] == [key] && path[1..][1..] == [];
    assert Walk(typed.entries[section], [key]) == Found(Leaf(text));
    assert Walk(typed, path) == Found(Leaf(text));
    hide Walk, Rendered;
    RenderedAt(baseline, typed, floodgate, overrides, path);
  }

  /** Go renders every typed option at its place, over any baseline. */
  lemma GoRendersOptions(baseline: Tree, o: Knobs, overrides: Tree)
    requires baseline.Node? && overrides.Node?
    ensures Shows(Rendered(baseline, GoTyped(o), o.floodgate, overrides), overrides, ["bedrock", "address"], o.listenAddress)
    ensures Shows(Rendered(baseline, GoTyped(o), o.floodgate, overrides), overrides, ["bedrock", "port"], o.listenPort)
    ensures Shows(Rendered(baseline, GoTyped(o), o.floodgate, overrides), overrides, ["bedrock", "motd1"], o.motd1)
    ensures Shows(Rendered(baseline, GoTyped(o), o.floodgate, overrides), overrides, ["bedrock", "motd2"], o.motd2)
    ensures Shows(Rendered(baseline, GoTyped(o), o.floodgate, overrides), overrides, ["bedrock", "server-name"], o.motd1)
    ensures Shows(Rendered(baseline, GoTyped(o), o.floodgate, overrides), overrides, ["java", "address"], o.upstreamAddress)
    ensures Shows(Rendered(baseline, GoTyped(o), o.floodgate, overrides), overrides, ["java", "port"], o.upstreamPort)
    ensures Shows(Rendered(baseline, GoTyped(o), o.floodgate, overrides), overrides, ["java", "auth-type"], o.authType)
    ensures Shows(Rendered(baseline, GoTyped(o), o.floodgate, overrides), overrides, ["java", "forward-hostname"], "true")
  {
    hide Shows, Rendered;
    TypedLeafShows(baseline, GoTyped(o), o.floodgate, overrides, "bedrock", "address", o.listenAddress);
    TypedLeafShows(baseline, GoTyped(o), o.floodgate, overrides, "bedrock", "port", o.listenPort);
    TypedLeafShows(baseline, GoTyped(o), o.floodgate, overrides, "bedrock", "motd1", o.motd1);
    TypedLeafShows(baseline, GoTyped(o), o.floodgate, overrides, "bedrock", "motd2", o.motd2);
    TypedLeafShows(baseline, GoTyped(o), o.floodgate, overrides, "bedrock", "server-name", o.motd1);
    TypedLeafShows(baseline, GoTyped(o), o.floodgate, overrides, "java", "address", o.upstreamAddress);
    TypedLeafShows(baseline, GoTyped(o), o.floodgate, overrides, "java", "port", o.upstreamPort);
    TypedLeafShows(baseline, GoTyped(o), o.floodgate, overrides, "java", "auth-type", o.authType);
    TypedLeafShows(baseline, GoTyped(o), o.floodgate, overrides, "java", "forward-hostname", "true");
  }

  /** So does Rust, and there it also renders the proxy toggle. */
  lemma RustRendersOptions(baseline: Tree, o: Knobs, overrides: Tree)
    requires baseline.Node? && overrides.Node?
    ensures Shows(Rendered(baseline, RustTyped(o), o.floodgate, overrides), overrides, ["bedrock", "address"], o.listenAddress)
    ensures Shows(Rendered(baseline, RustTyped(o), o.floodgate, overrides), overrides, ["bedrock", "port"], o.listenPort)
    ensures Shows(Rendered(baseline, RustTyped(o), o.floodgate, overrides), overrides, ["bedrock", "motd1"], o.motd1)
    ensures Shows(Rendered(baseline, RustTyped(o), o.floodgate, overrides), overrides, ["bedrock", "motd2"], o.motd2)
    ensures Shows(Rendered(baseline, RustTyped(o), o.floodgate, overrides), overrides, ["bedrock", "server-name"], o.motd1)
    ensures Shows(Rendered(baseline, RustTyped(o), o.floodgate, overrides), overrides, ["java", "address"], o.upstreamAddress)
    ensures Shows(Rendered(baseline, RustTyped(o), o.floodgate, overrides), overrides, ["java", "port"], o.upstreamPort)
    ensures Shows(Rendered(baseline, RustTyped(o), o.floodgate, overrides), overrides, ["java", "auth-type"], o.authType)
    ensures Shows(Rendered(baseline, RustTyped(o), o.floodgate, overrides), overrides, ["java", "forward-hostname"], "true")
    ensures Shows(Rendered(baseline, RustTyped(o), o.floodgate, overrides), overrides, ["java", "use-proxy-protocol"], if o.floodgate then "true" else "false")
  {
    hide Shows, Rendered;
    TypedLeafShows(baseline, RustTyped(o), o.floodgate, overrides, "bedrock", "address", o.listenAddress);
    TypedLeafShows(baseline, RustTyped(o), o.floodgate, overrides, "bedrock", "port", o.listenPort);
    TypedLeafShows(baseline, RustTyped(o), o.floodgate, overrides, "bedrock", "motd1", o.motd1);
    TypedLeafShows(baseline, RustTyped(o), o.floodgate, overrides, "bedrock", "motd2", o.motd2);
    TypedLeafShows(baseline, RustTyped(o), o.floodgate, overrides, "bedrock", "server-name", o.motd1);
    TypedLeafShows(baseline, RustTyped(o), o.floodgate, overrides, "java", "address", o.upstreamAddress);
    TypedLeafShows(baseline, RustTyped(o), o.floodgate, overrides, "java", "port", o.upstreamPort);
    TypedLeafShows(baseline, RustTyped(o), o.floodgate, overrides, "java", "auth-type", o.authType);
    TypedLeafShows(baseline, RustTyped(o), o.floodgate, overrides, "java", "forward-hostname", "true");
    TypedLeafShows(baseline, RustTyped(o), o.floodgate, overrides, "java", "use-proxy-protocol", if o.floodgate then "true" else "false");
  }

  /** The key file is named exactly with Floodgate on; neither language's options name it. */
  lemma KeyFileRendered(baseline: Tree, o: Knobs, overrides: Tree, go: bool)
    requires baseline.Node? && overrides.Node? && Walk(overrides, ["floodgate-key-file"]).Missing?
    ensures var rendered := Walk(Rendered(baseline, if go then GoTyped(o) else RustTyped(o), o.floodgate, overrides), ["floodgate-key-file"]);
      if o.floodgate then rendered == Found(Leaf("key.bin"))
      else Walk(baseline, ["floodgate-key-file"]).Found? ==> rendered == Walk(baseline, ["floodgate-key-file"])
  {
    var path := ["floodgate-key-file"];
    assert Walk(GoTyped(o), path) == Missing && Walk(RustTyped(o), path) == Missing;
    hide Walk, Rendered, GoTyped, RustTyped;
    assert GoTyped(o).Node? && RustTyped(o).Node?;
    RenderedAt(baseline, if go then GoTyped(o) else RustTyped(o), o.floodgate, overrides, path);
  }
}
