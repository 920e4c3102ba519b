/**
 * Module-tree rewriting for BitLinear conversion
 * (triune/models/swapper.py): which modules are converted, the dotted-path
 * pre-order walk, resolving a path back to its parent, the conversion loop
 * with its manifest, and the shape `save_manifest` serialises.
 *
 * A PyTorch module is a tree node: its class name, whether it is an
 * `nn.Linear` (subclasses included), and its named children in
 * registration order. The per-row scale of a replacement is computed from
 * float weights; it is a parameter here.
 */
module Swapper {
  import opened Wrappers
  import opened Strings
  import opened JsValues

  datatype Module = Module(cls: string, isLinear: bool, children: seq<Child>)

  datatype Child = Child(name: string, node: Module)

  datatype SwapConfig = SwapConfig(allowModules: set<string>, blockModules: set<string>, includeBias: bool)

  /** The dataclass defaults. */
  const DefaultConfig: SwapConfig := SwapConfig({"Linear"}, {"Embedding", "LayerNorm", "RMSNorm"}, true)

  const ReplacementClass: string := "BitLinearV2"

  /** What `linear_to_bitlinear` puts in place: a BitLinearV2, which is not an `nn.Linear` and has no child modules. */
  const Replacement: Module := Module(ReplacementClass, false, [])

  datatype SwapRecord = SwapRecord(modulePath: string, originalCls: string, replacedCls: string, scale: seq<real>)

  /** `should_convert`: blocked classes never, otherwise allowed classes that are linear layers. */
  predicate ShouldConvert(m: Module, config: SwapConfig) {
    if m.cls in config.blockModules then false
    else if m.cls !in config.allowModules then false
    else m.isLinear
  }

  /** A class on the block list is never converted, even when it is also allowed. */
  lemma BlockBeatsAllow(m: Module, config: SwapConfig)
    requires m.cls in config.blockModules && m.cls in config.allowModules && m.isLinear
    ensures !ShouldConvert(m, config)
  {
  }

  /** Conversion needs an allowed class and an `nn.Linear` instance; with both, only the block list stops it. */
  lemma ConvertExactly(m: Module, config: SwapConfig)
    ensures ShouldConvert(m, config) <==> m.cls in config.allowModules && m.isLinear && m.cls !in config.blockModules
  {
  }

  /** Under the defaults exactly the linear layers whose class is named `Linear` are converted. */
  lemma DefaultConvertsLinear(m: Module)
    ensures ShouldConvert(m, DefaultConfig) <==> m.cls == "Linear" && m.isLinear
  {
  }

  // ---- paths and the walk ----

  /** `f"{prefix}.{name}" if prefix else name`. */
  function ChildPath(prefix: string, name: string): (p: string)
    ensures prefix == "" ==> p == name
    ensures prefix != "" ==> |p| == |prefix| + 1 + |name| && p[..|prefix|] == prefix && p[|prefix|] == '.'
    ensures prefix != "" ==> p[|prefix| + 1..] == name
  {
    if prefix != "" then prefix + "." + name else name
  }

  datatype Entry = Entry(path: string, node: Module)

  /** `iter_named_modules(module, prefix)`: each child, then everything below it, in child order. */
  function Walk(m: Module, prefix: string): seq<Entry> {
    WalkChildren(m.children, prefix)
  }

  function WalkChildren(cs: seq<Child>, prefix: string): seq<Entry>
    decreases cs
  {
    if cs == [] then []
    else
      var p := ChildPath(prefix, cs[0].name);
      [Entry(p, cs[0].node)] + WalkChildren(cs[0].node.children, p) + WalkChildren(cs[1..], prefix)
  }

  /** A valid child name: non-empty and free of dots, as PyTorch demands of submodule names. */
  predicate ValidName(n: string) {
    n != "" && '.' !in n
  }

  predicate DistinctNames(cs: seq<Child>) {
    forall i, j :: 0 <= i < j < |cs| ==> cs[i].name != cs[j].name
  }

  /** Every node's child names are valid and distinct. */
  predicate WellFormed(m: Module) {
    ChildrenWellFormed(m.children)
  }

  predicate ChildrenWellFormed(cs: seq<Child>)
    decreases cs
  {
    DistinctNames(cs) && forall k :: 0 <= k < |cs| ==> ValidName(cs[k].name) && ChildrenWellFormed(cs[k].node.children)
  }

  /** `getattr(parent, name)` for a submodule: the child of that name, `None` for an `AttributeError`. */
  function FindChild(cs: seq<Child>, name: string): (r: Option<Module>)
    ensures r.Some? ==> exists k :: 0 <= k < |cs| && cs[k].name == name && cs[k].node == r.value
    ensures r.None? <==> forall k :: 0 <= k < |cs| ==> cs[k].name != name
  {
    if cs == [] then None
    else if cs[0].name == name then Some(cs[0].node)
    else
      var r := FindChild(cs[1..], name);
      assert forall k :: 1 <= k < |cs| ==> cs[k] == cs[1..][k - 1];
      r
  }

  /** The node reached by following `names` down from `m`. */
  function Lookup(m: Module, names: seq<string>): Option<Module>
    decreases |names|
  {
    if names == [] then Some(m)
    else
      match FindChild(m.children, names[0])
      case None => None
      case Some(c) => Lookup(c, names[1..])
  }

  /** `_resolve_parent`: split on dots, walk all segments but the last, return the last as the attribute name. */
  function ResolveParent(root: Module, path: string): (r: Option<(Module, string)>)
    ensures r.Some? ==> var parts := Split(path, ".");
      r.value.1 == parts[|parts| - 1] && Lookup(root, parts[..|parts| - 1]) == Some(r.value.0)
  {
    var parts := Split(path, ".");
    match Lookup(root, parts[..|parts| - 1])
    case None => None
    case Some(parent) => Some((parent, parts[|parts| - 1]))
  }

  /** What `getattr(parent, attr)` gives after resolving `path`. */
  function Resolve(root: Module, path: string): Option<Module> {
    match ResolveParent(root, path)
    case None => None
    case Some((parent, attr)) => FindChild(parent.children, attr)
  }

  /** In a node with distinct child names, looking a child up by its name finds it. */
  lemma FindMember(cs: seq<Child>, k: nat)
    requires k < |cs| && DistinctNames(cs)
    ensures FindChild(cs, cs[k].name) == Some(cs[k].node)
  {
    var r := FindChild(cs, cs[k].name);
    var j :| 0 <= j < |cs| && cs[j].name == cs[k].name && cs[j].node == r.value;
    assert j == k;
  }

  /** Following one more name is a child lookup at the end of the path. */
  lemma {:induction false} LookupSnoc(m: Module, names: seq<string>, n: string)
    ensures Lookup(m, names + [n]) == match Lookup(m, names) case None => None case Some(p) => FindChild(p.children, n)
    decreases |names|
  {
    if names != [] {
      assert (names + [n])[1..] == names[1..] + [n];
      match FindChild(m.children, names[0])
      case None =>
      case Some(c) => LookupSnoc(c, names[1..], n);
    } else {
      assert [n][1..] == [];
    }
  }

  /** The path a walk builds for the names `names` is their dotted join. */
  lemma PathIsJoin(names: seq<string>, n: string)
    requires forall k :: 0 <= k < |names| ==> ValidName(names[k])
    ensures ChildPath(Join(names, "."), n) == Join(names + [n], ".")
  {
    if names == [] {
      assert [] + [n] == [n];
    } else {
      JoinSnoc(names, n, ".");
      JoinNonEmpty(names);
    }
  }

  lemma JoinNonEmpty(names: seq<string>)
    requires |names| >= 1 && names[0] != ""
    ensures Join(names, ".") != ""
  {
    if |names| > 1 {
      JoinCons(names[0], names[1..], ".");
      assert names == [names[0]] + names[1..];
    }
  }

  /** Resolving the dotted join of a valid name path gives its parent and last name. */
  lemma ResolveJoin(root: Module, names: seq<string>)
    requires |names| >= 1 && forall k :: 0 <= k < |names| ==> ValidName(names[k])
    ensures Resolve(root, Join(names, ".")) == Lookup(root, names)
  {
    SplitJoin(names, '.');
    var init := names[..|names| - 1];
    assert names == init + [names[|names| - 1]];
    LookupSnoc(root, init, names[|names| - 1]);
  }

  /**
   * Every entry of the walk below `parent` (reached from `root` along
   * `names`) resolves back to its own module: path building and
   * `_resolve_parent` are inverse.
   */
  lemma {:induction false} WalkResolvesFrom(root: Module, parent: Module, names: seq<string>, cs: seq<Child>)
    requires Lookup(root, names) == Some(parent) && WellFormed(parent)
    requires forall k :: 0 <= k < |names| ==> ValidName(names[k])
    requires forall k :: 0 <= k < |cs| ==> cs[k] in parent.children
    ensures forall e :: e in WalkChildren(cs, Join(names, ".")) ==> Resolve(root, e.path) == Some(e.node)
    decreases cs
  {
    if cs != [] {
      var c := cs[0];
      var k :| 0 <= k < |parent.children| && parent.children[k] == c;
      var names' := names + [c.name];
      assert forall i :: 0 <= i < |names'| ==> ValidName(names'[i]);
      PathIsJoin(names, c.name);
      FindMember(parent.children, k);
      LookupSnoc(root, names, c.name);
      ResolveJoin(root, names');
      WalkResolvesFrom(root, c.node, names', c.node.children);
      WalkResolvesFrom(root, parent, names, cs[1..]);
    }
  }

  /** Every path the walk yields from the root resolves to the module yielded with it. */
  lemma WalkResolves(root: Module)
    requires WellFormed(root)
    ensures forall e :: e in Walk(root, "") ==> Resolve(root, e.path) == Some(e.node)
  {
    WalkResolvesFrom(root, root, [], root.children);
  }

  // ---- the conversion loop ----

  /** `setattr(parent, attr, value)`: replaces the child of that name, or registers a new one at the end. */
  function SetChild(cs: seq<Child>, name: string, value: Module): (r: seq<Child>)
    ensures FindChild(r, name) == Some(value)
  {
    if cs == [] then [Child(name, value)]
    else if cs[0].name == name then [Child(name, value)] + cs[1..]
    else [cs[0]] + SetChild(cs[1..], name, value)
  }

  /** The tree after `setattr` on the node at `names`. */
  function SetAt(m: Module, names: seq<string>, attr: string, value: Module): Option<Module>
    decreases |names|
  {
    if names == [] then Some(m.(children := SetChild(m.children, attr, value)))
    else
      match FindChild(m.children, names[0])
      case None => None
      case Some(c) =>
        match SetAt(c, names[1..], attr, value)
        case None => None
        case Some(c') => Some(m.(children := SetChild(m.children, names[0], c')))
  }

  datatype ConvertState = ConvertState(model: Module, manifest: map<string, SwapRecord>)

  /** Every record is filed under its own path and names the replacement class. */
  predicate RecordsOk(manifest: map<string, SwapRecord>) {
    forall k :: k in manifest ==> manifest[k].modulePath == k && manifest[k].replacedCls == ReplacementClass
  }

  /** One entry of the loop in `convert_model`; `None` is the `AttributeError` of a path that no longer resolves. */
  function Step(s: ConvertState, e: Entry, config: SwapConfig, scaleOf: Module -> seq<real>): (r: Option<ConvertState>)
    ensures !ShouldConvert(e.node, config) ==> r == Some(s)
    ensures ShouldConvert(e.node, config) ==> (r.None? <==> ResolveParent(s.model, e.path).None?)
    ensures r.Some? && ShouldConvert(e.node, config) ==>
      r.value.manifest == s.manifest[e.path := SwapRecord(e.path, e.node.cls, ReplacementClass, scaleOf(e.node))]
  {
    if !ShouldConvert(e.node, config) then Some(s)
    else
      match ResolveParent(s.model, e.path)
      case None => None
      case Some((_, attr)) =>
        var parts := Split(e.path, ".");
        SetAtSome(s.model, parts[..|parts| - 1], attr, Replacement);
        match SetAt(s.model, parts[..|parts| - 1], attr, Replacement)
        case None => None
        case Some(model') =>
          Some(ConvertState(model', s.manifest[e.path := SwapRecord(e.path, e.node.cls, ReplacementClass, scaleOf(e.node))]))
  }

  function Apply(s: ConvertState, es: seq<Entry>, config: SwapConfig, scaleOf: Module -> seq<real>): (r: Option<ConvertState>)
    ensures RecordsOk(s.manifest) && r.Some? ==> RecordsOk(r.value.manifest)
    decreases |es|
  {
    if es == [] then Some(s)
    else
      match Step(s, es[0], config, scaleOf)
      case None => None
      case Some(s') => Apply(s', es[1..], config, scaleOf)
  }

  /** `convert_model`: the rewritten model and the manifest, or `None` where the loop raises. */
  function ConvertModel(model: Module, config: SwapConfig, scaleOf: Module -> seq<real>): (r: Option<ConvertState>)
    ensures r.Some? ==> RecordsOk(r.value.manifest)
  {
    Apply(ConvertState(model, map[]), Walk(model, ""), config, scaleOf)
  }

  /** The paths of the entries that are converted. */
  function ConvertedPaths(es: seq<Entry>, config: SwapConfig): set<string> {
    set k | 0 <= k < |es| && ShouldConvert(es[k].node, config) :: es[k].path
  }

  /** The loop files a record under exactly the paths of the converted entries. */
  lemma {:induction false} ApplyKeys(s: ConvertState, es: seq<Entry>, config: SwapConfig, scaleOf: Module -> seq<real>)
    requires Apply(s, es, config, scaleOf).Some?
    ensures Apply(s, es, config, scaleOf).value.manifest.Keys == s.manifest.Keys + ConvertedPaths(es, config)
    decreases |es|
  {
    if es != [] {
      var s' := Step(s, es[0], config, scaleOf).value;
      ApplyKeys(s', es[1..], config, scaleOf);
      var rest := es[1..];
      assert forall k :: 0 <= k < |rest| ==> rest[k] == es[k + 1];
      assert ConvertedPaths(es, config) == ConvertedPaths(rest, config) + (if ShouldConvert(es[0].node, config) then {es[0].path} else {}) by {
        forall x | x in ConvertedPaths(es, config)
          ensures x in ConvertedPaths(rest, config) + (if ShouldConvert(es[0].node, config) then {es[0].path} else {})
        {
          var k :| 0 <= k < |es| && ShouldConvert(es[k].node, config) && es[k].path == x;
          if k > 0 {
            assert rest[k - 1] == es[k];
          }
        }
      }
    }
  }

  /** The manifest keys are exactly the walked paths of the modules that qualify for conversion. */
  lemma ManifestKeys(model: Module, config: SwapConfig, scaleOf: Module -> seq<real>)
    requires ConvertModel(model, config, scaleOf).Some?
    ensures ConvertModel(model, config, scaleOf).value.manifest.Keys == ConvertedPaths(Walk(model, ""), config)
  {
    ApplyKeys(ConvertState(model, map[]), Walk(model, ""), config, scaleOf);
  }

  // ---- when the loop does not raise ----

  /** No module at or below these children qualifies for conversion. */
  predicate NoConvertBelow(cs: seq<Child>, config: SwapConfig)
    decreases cs
  {
    forall k :: 0 <= k < |cs| ==> !ShouldConvert(cs[k].node, config) && NoConvertBelow(cs[k].node.children, config)
  }

  /** No module that qualifies sits below another that qualifies. */
  predicate NotNested(cs: seq<Child>, config: SwapConfig)
    decreases cs
  {
    forall k :: 0 <= k < |cs| ==>
      (ShouldConvert(cs[k].node, config) ==> NoConvertBelow(cs[k].node.children, config)) && NotNested(cs[k].node.children, config)
  }

  predicate IsPrefix(p: seq<string>, q: seq<string>) {
    |p| <= |q| && q[..|p|] == p
  }

  /** `getattr` of another name is not affected by `setattr`. */
  lemma {:induction false} FindOther(cs: seq<Child>, name: string, v: Module, other: string)
    requires other != name
    ensures FindChild(SetChild(cs, name, v), other) == FindChild(cs, other)
    decreases |cs|
  {
    if cs != [] && cs[0].name != name {
      var r := SetChild(cs, name, v);
      assert r == [cs[0]] + SetChild(cs[1..], name, v);
      assert r[1..] == SetChild(cs[1..], name, v);
      FindOther(cs[1..], name, v, other);
    }
  }

  /** `setattr` below a node that resolves does not raise. */
  lemma {:induction false} SetAtSome(m: Module, names: seq<string>, attr: string, v: Module)
    requires Lookup(m, names).Some?
    ensures SetAt(m, names, attr, v).Some?
    decreases |names|
  {
    if names != [] {
      SetAtSome(FindChild(m.children, names[0]).value, names[1..], attr, v);
    }
  }

  lemma PrefixCons(p: seq<string>, q: seq<string>)
    requires p != [] && q != [] && p[0] == q[0]
    ensures IsPrefix(p, q) <==> IsPrefix(p[1..], q[1..])
  {
    if IsPrefix(p[1..], q[1..]) {
      assert q[..|p|] == [q[0]] + q[1..][..|p| - 1];
      assert p == [p[0]] + p[1..];
    }
  }

  /** After `setattr` at `names + [attr]`, every path that does not pass through that child still resolves. */
  lemma {:induction false} SetAtReach(m: Module, names: seq<string>, attr: string, v: Module, q: seq<string>)
    requires SetAt(m, names, attr, v).Some? && Lookup(m, q).Some?
    requires !IsPrefix(names + [attr], q)
    ensures Lookup(SetAt(m, names, attr, v).value, q).Some?
    decreases |names|
  {
    if q != [] {
      if names == [] {
        assert names + [attr] == [attr];
        assert q[..1] == [q[0]];
        FindOther(m.children, attr, v, q[0]);
      } else {
        var c := FindChild(m.children, names[0]).value;
        var c' := SetAt(c, names[1..], attr, v).value;
        if q[0] == names[0] {
          assert (names + [attr])[1..] == names[1..] + [attr];
          PrefixCons(names + [attr], q);
          SetAtReach(c, names[1..], attr, v, q[1..]);
        } else {
          FindOther(m.children, names[0], c', q[0]);
        }
      }
    }
  }

  /** Following `p + r` is following `r` from the end of `p`. */
  lemma {:induction false} LookupAppend(m: Module, p: seq<string>, r: seq<string>)
    requires Lookup(m, p).Some?
    ensures Lookup(m, p + r) == Lookup(Lookup(m, p).value, r)
    decreases |p|
  {
    if p == [] {
      assert p + r == r;
    } else {
      assert (p + r)[0] == p[0] && (p + r)[1..] == p[1..] + r;
      LookupAppend(FindChild(m.children, p[0]).value, p[1..], r);
    }
  }

  lemma {:induction false} NoConvertFound(m: Module, r: seq<string>, config: SwapConfig)
    requires NoConvertBelow(m.children, config) && r != [] && Lookup(m, r).Some?
    ensures !ShouldConvert(Lookup(m, r).value, config)
    decreases |r|
  {
    var c := FindChild(m.children, r[0]).value;
    if r[1..] != [] {
      NoConvertFound(c, r[1..], config);
    }
  }

  /** Under `NotNested`, no path reaching a qualifying module extends another that does. */
  lemma {:induction false} NotNestedPaths(m: Module, config: SwapConfig, p: seq<string>, q: seq<string>)
    requires NotNested(m.children, config)
    ensures (p != [] && |p| < |q| && IsPrefix(p, q) && Lookup(m, p).Some? && ShouldConvert(Lookup(m, p).value, config)
             && Lookup(m, q).Some?) ==> !ShouldConvert(Lookup(m, q).value, config)
    decreases |p|
  {
    if p != [] && |p| < |q| && IsPrefix(p, q) && Lookup(m, p).Some? {
      var c := FindChild(m.children, p[0]).value;
      var k :| 0 <= k < |m.children| && m.children[k].name == p[0] && m.children[k].node == c;
      assert Lookup(m, p) == Lookup(c, p[1..]);
      PrefixCons(p, q);
      assert Lookup(m, q) == Lookup(c, q[1..]);
      if p[1..] == [] {
        if ShouldConvert(c, config) && Lookup(c, q[1..]).Some? {
          NoConvertFound(c, q[1..], config);
        }
      } else {
        NotNestedPaths(c, config, p[1..], q[1..]);
      }
    }
  }

  /** Every path with no converted path as a prefix still resolves in the current model. */
  ghost predicate Reachable(tree: Module, model: Module, done: set<seq<string>>) {
    forall q :: Lookup(tree, q).Some? && (forall p :: p in done ==> !IsPrefix(p, q)) ==> Lookup(model, q).Some?
  }

  /** The converted paths are non-empty and name qualifying modules of the original tree. */
  ghost predicate ConvertedIn(tree: Module, done: set<seq<string>>, config: SwapConfig) {
    forall p :: p in done ==> p != [] && Lookup(tree, p).Some? && ShouldConvert(Lookup(tree, p).value, config)
  }

  /** A non-empty sequence is its front followed by its last element. */
  lemma InitLast<T>(s: seq<T>)
    requires s != []
    ensures s == s[..|s| - 1] + [s[|s| - 1]]
  {
  }

  lemma PrefixOfInit(p: seq<string>, parts: seq<string>)
    requires parts != []
    ensures IsPrefix(p, parts[..|parts| - 1]) ==> IsPrefix(p, parts) && |p| < |parts|
  {
    if IsPrefix(p, parts[..|parts| - 1]) {
      assert parts[..|p|] == parts[..|parts| - 1][..|p|];
    }
  }

  /** The loop runs to the end over entries of the original tree when no qualifying module is nested in another. */
  lemma {:induction false} ApplySucceeds(tree: Module, s: ConvertState, done: set<seq<string>>, es: seq<Entry>,
                                         config: SwapConfig, scaleOf: Module -> seq<real>)
    requires NotNested(tree.children, config)
    requires Reachable(tree, s.model, done) && ConvertedIn(tree, done, config)
    requires forall k :: 0 <= k < |es| ==> Lookup(tree, Split(es[k].path, ".")) == Some(es[k].node)
    ensures Apply(s, es, config, scaleOf).Some?
    decreases |es|
  {
    if es != [] {
      var e := es[0];
      if ShouldConvert(e.node, config) {
        var parts := Split(e.path, ".");
        ParentReachable(tree, s.model, done, parts, config);
        var s' := StepConverts(s, e, config, scaleOf);
        ReachableAfterSet(tree, s.model, done, parts);
        ApplySucceeds(tree, s', done + {parts}, es[1..], config, scaleOf);
      } else {
        ApplySucceeds(tree, s, done, es[1..], config, scaleOf);
      }
    }
  }

  /** The parent of a qualifying module still resolves: no converted path is a prefix of it. */
  lemma ParentReachable(tree: Module, model: Module, done: set<seq<string>>, parts: seq<string>, config: SwapConfig)
    requires NotNested(tree.children, config)
    requires Reachable(tree, model, done) && ConvertedIn(tree, done, config)
    requires parts != [] && Lookup(tree, parts).Some? && ShouldConvert(Lookup(tree, parts).value, config)
    ensures Lookup(model, parts[..|parts| - 1]).Some?
  {
    var init := parts[..|parts| - 1];
    var attr := parts[|parts| - 1];
    assert Lookup(tree, init).Some? by {
      InitLast(parts);
      LookupSnoc(tree, init, attr);
    }
    assert forall p :: p in done ==> !IsPrefix(p, init) by {
      forall p | p in done ensures !IsPrefix(p, init) {
        PrefixOfInit(p, parts);
        NotNestedPaths(tree, config, p, parts);
      }
    }
  }

  /** A qualifying entry whose parent resolves is replaced and recorded. */
  lemma StepConverts(s: ConvertState, e: Entry, config: SwapConfig, scaleOf: Module -> seq<real>) returns (s': ConvertState)
    requires ShouldConvert(e.node, config)
    requires var parts := Split(e.path, "."); Lookup(s.model, parts[..|parts| - 1]).Some?
    ensures var parts := Split(e.path, ".");
      SetAt(s.model, parts[..|parts| - 1], parts[|parts| - 1], Replacement).Some?
      && s'.model == SetAt(s.model, parts[..|parts| - 1], parts[|parts| - 1], Replacement).value
      && Step(s, e, config, scaleOf) == Some(s')
  {
    var parts := Split(e.path, ".");
    SetAtSome(s.model, parts[..|parts| - 1], parts[|parts| - 1], Replacement);
    var model' := SetAt(s.model, parts[..|parts| - 1], parts[|parts| - 1], Replacement).value;
    s' := ConvertState(model', s.manifest[e.path := SwapRecord(e.path, e.node.cls, ReplacementClass, scaleOf(e.node))]);
  }

  /** Replacing the module at `parts` keeps every path that does not pass through it resolvable. */
  lemma ReachableAfterSet(tree: Module, model: Module, done: set<seq<string>>, parts: seq<string>)
    requires Reachable(tree, model, done) && parts != []
    requires SetAt(model, parts[..|parts| - 1], parts[|parts| - 1], Replacement).Some?
    ensures Reachable(tree, SetAt(model, parts[..|parts| - 1], parts[|parts| - 1], Replacement).value, done + {parts})
  {
    var init := parts[..|parts| - 1];
    var attr := parts[|parts| - 1];
    assert parts == init + [attr] by {
      InitLast(parts);
    }
    var model' := SetAt(model, init, attr, Replacement).value;
    forall q | Lookup(tree, q).Some? && (forall p :: p in done + {parts} ==> !IsPrefix(p, q)) ensures Lookup(model', q).Some? {
      SetAtReach(model, init, attr, Replacement, q);
    }
  }

  /** `_resolve_parent` then `getattr` is following every dotted segment. */
  lemma ResolveIsLookup(root: Module, path: string)
    ensures Resolve(root, path) == Lookup(root, Split(path, "."))
  {
    var parts := Split(path, ".");
    InitLast(parts);
    LookupSnoc(root, parts[..|parts| - 1], parts[|parts| - 1]);
  }

  /**
   * `convert_model` does not raise on a tree with valid, distinct child
   * names in which no qualifying module sits below another one.
   */
  lemma ConvertSucceeds(model: Module, config: SwapConfig, scaleOf: Module -> seq<real>)
    requires WellFormed(model) && NotNested(model.children, config)
    ensures ConvertModel(model, config, scaleOf).Some?
    ensures ConvertModel(model, config, scaleOf).value.manifest.Keys == ConvertedPaths(Walk(model, ""), config)
  {
    var es := Walk(model, "");
    WalkResolves(model);
    forall k | 0 <= k < |es| ensures Lookup(model, Split(es[k].path, ".")) == Some(es[k].node) {
      ResolveIsLookup(model, es[k].path);
    }
    ApplySucceeds(model, ConvertState(model, map[]), {}, es, config, scaleOf);
    ManifestKeys(model, config, scaleOf);
  }

  /** A one-layer `nn.Sequential(nn.Linear(...))` gets its layer replaced and a one-record manifest. */
  lemma SequentialLinearConverted(scaleOf: Module -> seq<real>)
    ensures var linear := Module("Linear", true, []);
      ConvertModel(Module("Sequential", false, [Child("0", linear)]), DefaultConfig, scaleOf)
      == Some(ConvertState(Module("Sequential", false, [Child("0", Replacement)]),
                           map["0" := SwapRecord("0", "Linear", ReplacementClass, scaleOf(linear))]))
  {
    var linear := Module("Linear", true, []);
    var model := Module("Sequential", false, [Child("0", linear)]);
    var cs := [Child("0", linear)];
    assert cs[1..] == [];
    assert WalkChildren(cs, "") == [Entry("0", linear)];
    SplitJoin(["0"], '.');
    assert Split("0", ".") == ["0"];
    assert ["0"][..0] == [];
    assert ShouldConvert(linear, DefaultConfig);
    var s0 := ConvertState(model, map[]);
    var record := SwapRecord("0", "Linear", ReplacementClass, scaleOf(linear));
    var s1 := ConvertState(Module("Sequential", false, [Child("0", Replacement)]), map["0" := record]);
    assert SetChild(cs, "0", Replacement) == [Child("0", Replacement)];
    assert Step(s0, Entry("0", linear), DefaultConfig, scaleOf) == Some(s1);
    assert [Entry("0", linear)][1..] == [];
  }

  // ---- save_manifest ----

  function ScaleJson(scale: seq<real>): (j: Json)
    ensures j.Arr? && |j.items| == |scale| && forall k :: 0 <= k < |scale| ==> j.items[k] == Num(scale[k])
  {
    Arr(seq(|scale|, k requires 0 <= k < |scale| => Num(scale[k])))
  }

  function RecordJson(r: SwapRecord): Json {
    Obj(map["original" := Str(r.originalCls), "replacement" := Str(r.replacedCls), "scale" := ScaleJson(r.scale)])
  }

  /** The object `save_manifest` serialises: one entry per manifest key. */
  function ManifestJson(manifest: map<string, SwapRecord>): map<string, Json> {
    map k | k in manifest :: RecordJson(manifest[k])
  }

  /** Reads one serialised record back, under the key it is filed under. */
  function ReadRecord(key: string, j: Json): Option<SwapRecord> {
    if j.Obj? && j.fields.Keys == {"original", "replacement", "scale"}
       && j.fields["original"].Str? && j.fields["replacement"].Str? && j.fields["scale"].Arr?
       && forall k :: 0 <= k < |j.fields["scale"].items| ==> j.fields["scale"].items[k].Num?
    then
      var items := j.fields["scale"].items;
      Some(SwapRecord(key, j.fields["original"].s, j.fields["replacement"].s, seq(|items|, k requires 0 <= k < |items| => items[k].x)))
    else None
  }

  /** Serialising a well-filed manifest loses nothing: reading every entry back gives the manifest. */
  lemma ManifestRoundTrip(manifest: map<string, SwapRecord>)
    requires RecordsOk(manifest)
    ensures var out := ManifestJson(manifest);
      out.Keys == manifest.Keys && forall k :: k in out ==> ReadRecord(k, out[k]) == Some(manifest[k])
  {
    forall k | k in manifest ensures ReadRecord(k, RecordJson(manifest[k])) == Some(manifest[k]) {
      var r := manifest[k];
      var j := RecordJson(r);
      assert j.fields.Keys == {"original", "replacement", "scale"};
      var items := j.fields["scale"].items;
      assert seq(|items|, i requires 0 <= i < |items| => items[i].x) == r.scale;
    }
  }
}
