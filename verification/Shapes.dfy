/** Shapes of step outputs, their flattening into leaf paths, and what the picked tokens resolve to. */
module Shapes {
  import opened Options
  import opened JsonValues
  import opened Tokens
  import opened FieldTokens

  datatype LeafType = StringLeaf | NumberLeaf | BooleanLeaf | JsonLeaf

  datatype Shape =
    | Leaf(leaf: LeafType, description: Option<string>)
    | Object(fields: seq<Field>)
    | Union(variants: seq<Shape>)

  datatype Field = Field(key: string, shape: Shape)

  /** What a leaf says of itself. */
  datatype Info = Info(leaf: LeafType, description: Option<string>)

  datatype Listed = Listed(path: seq<string>, info: Info)

  /* ---- Flattening ---- */

  /** The leaves whose dotted path is new, in order. */
  function FirstPerKey(leaves: seq<Listed>): seq<Listed>
    decreases |leaves|
  {
    if leaves == [] then []
    else
      var before := FirstPerKey(leaves[..|leaves| - 1]);
      var last := leaves[|leaves| - 1];
      if KeyTaken(before, last) then before else before + [last]
  }

  predicate KeyTaken(leaves: seq<Listed>, l: Listed) {
    exists k :: 0 <= k < |leaves| && Join(leaves[k].path) == Join(l.path)
  }

  /** A description is listed unless it is empty. */
  function Described(leaf: LeafType, description: Option<string>): (r: Info)
    ensures r.leaf == leaf && (r.description == description || r.description.None?)
    ensures r.description.None? <==> description.None? || description == Some("")
  {
    Info(leaf, if description == Some("") then None else description)
  }

  function Flatten(s: Shape, prefix: seq<string>): seq<Listed>
    decreases s, Width(s) + 1
  {
    match s
    case Leaf(leaf, description) => [Listed(prefix, Described(leaf, description))]
    case Object(fields) => FlattenFields(s, |fields|, prefix)
    case Union(variants) => FirstPerKey(FlattenVariants(s, |variants|, prefix))
  }

  function Width(s: Shape): nat {
    match s
    case Leaf(_, _) => 0
    case Object(fields) => |fields|
    case Union(variants) => |variants|
  }

  /** The leaves of an object's first `n` fields. */
  function FlattenFields(s: Shape, n: nat, prefix: seq<string>): seq<Listed>
    requires s.Object? && n <= |s.fields|
    decreases s, n
  {
    if n == 0 then []
    else FlattenFields(s, n - 1, prefix) + Flatten(s.fields[n - 1].shape, prefix + [s.fields[n - 1].key])
  }

  /** The leaves of a union's first `n` variants, before any is dropped. */
  function FlattenVariants(s: Shape, n: nat, prefix: seq<string>): seq<Listed>
    requires s.Union? && n <= |s.variants|
    decreases s, n
  {
    if n == 0 then [] else FlattenVariants(s, n - 1, prefix) + Flatten(s.variants[n - 1], prefix)
  }

  /** `flattenShape`. */
  method FlattenShape(s: Shape, prefix: seq<string>) returns (out: seq<Listed>)
    ensures out == Flatten(s, prefix)
    decreases s, 1
  {
    match s
    case Leaf(leaf, description) => out := [Listed(prefix, Described(leaf, description))];
    case Object(fields) =>
      out := [];
      for i := 0 to |fields|
        invariant out == FlattenFields(s, i, prefix)
      {
        var leaves := FlattenShape(fields[i].shape, prefix + [fields[i].key]);
        out := out + leaves;
      }
    case Union(variants) => out := FlattenUnion(s, prefix);
  }

  /** The dotted paths seen so far are those of the leaves kept. */
  ghost predicate SeenKeys(seen: set<string>, out: seq<Listed>) {
    forall l: Listed :: Join(l.path) in seen <==> KeyTaken(out, l)
  }

  lemma SeeOneMore(seen: set<string>, out: seq<Listed>, l: Listed)
    requires SeenKeys(seen, out)
    ensures SeenKeys(seen + {Join(l.path)}, out + [l])
  {
    forall m: Listed
      ensures Join(m.path) in seen + {Join(l.path)} <==> KeyTaken(out + [l], m)
    {
      hide Join;
      if KeyTaken(out, m) {
        var k :| 0 <= k < |out| && Join(out[k].path) == Join(m.path);
        assert (out + [l])[k] == out[k];
      }
      if Join(m.path) == Join(l.path) {
        assert (out + [l])[|out|] == l;
      }
    }
  }

  lemma KeepOneMore(all: seq<Listed>, l: Listed)
    ensures FirstPerKey(all + [l]) == if KeyTaken(FirstPerKey(all), l) then FirstPerKey(all) else FirstPerKey(all) + [l]
  {
    assert (all + [l])[..|all|] == all;
  }

  method FlattenUnion(s: Shape, prefix: seq<string>) returns (out: seq<Listed>)
    requires s.Union?
    ensures out == FirstPerKey(FlattenVariants(s, |s.variants|, prefix))
    decreases s, 0
  {
    hide Flatten, FirstPerKey, KeyTaken, SeenKeys;
    out := [];
    var seen: set<string> := {};
    ghost var all: seq<Listed> := [];
    NothingSeen();
    for i := 0 to |s.variants|
      invariant all == FlattenVariants(s, i, prefix)
      invariant out == FirstPerKey(all) && SeenKeys(seen, out)
    {
      var leaves := FlattenShape(s.variants[i], prefix);
      ghost var before := all;
      for j := 0 to |leaves|
        invariant all == before + leaves[..j]
        invariant out == FirstPerKey(all) && SeenKeys(seen, out)
      {
        var key := Join(leaves[j].path);
        KeepOneMore(all, leaves[j]);
        SeenMeansTaken(seen, out, leaves[j]);
        all := all + [leaves[j]];
        if key !in seen {
          SeeOneMore(seen, out, leaves[j]);
          seen := seen + {key};
          out := out + [leaves[j]];
        }
      }
    }
  }

  lemma SeenMeansTaken(seen: set<string>, out: seq<Listed>, l: Listed)
    requires SeenKeys(seen, out)
    ensures Join(l.path) in seen <==> KeyTaken(out, l)
  {
  }

  lemma NothingSeen()
    ensures SeenKeys({}, []) && FirstPerKey([]) == []
  {
  }

  /* ---- What a shape denotes ---- */

  /** A leaf of this type and description lies at the end of this path. */
  ghost predicate HasLeaf(s: Shape, path: seq<string>, info: Info)
    decreases s
  {
    match s
    case Leaf(leaf, description) => path == [] && info == Described(leaf, description)
    case Object(fields) => path != [] && exists f <- fields :: f.key == path[0] && HasLeaf(f.shape, path[1..], info)
    case Union(variants) => exists v <- variants :: HasLeaf(v, path, info)
  }

  ghost predicate HasPath(s: Shape, path: seq<string>) {
    exists info :: HasLeaf(s, path, info)
  }

  /** A condition on every key of a shape. */
  predicate AllKeys(s: Shape, ok: string -> bool)
    decreases s
  {
    match s
    case Leaf(_, _) => true
    case Object(fields) => forall f <- fields :: ok(f.key) && AllKeys(f.shape, ok)
    case Union(variants) => forall v <- variants :: AllKeys(v, ok)
  }

  /** The keys of every object are distinct, as the keys of a record are. */
  predicate Proper(s: Shape)
    decreases s
  {
    match s
    case Leaf(_, _) => true
    case Object(fields) =>
      && (forall f <- fields :: Proper(f.shape))
      && forall i, j :: 0 <= i < j < |fields| ==> fields[i].key != fields[j].key
    case Union(variants) => forall v <- variants :: Proper(v)
  }

  ghost predicate Lists(out: seq<Listed>, path: seq<string>) {
    exists k :: 0 <= k < |out| && out[k].path == path
  }

  /** A listed leaf is one the shape denotes below the prefix, as it describes itself. */
  ghost predicate Denoted(s: Shape, prefix: seq<string>, l: Listed) {
    prefix <= l.path && HasLeaf(s, l.path[|prefix|..], l.info)
  }

  /* ---- Every listed leaf is denoted ---- */

  lemma {:induction false} ListedAreDenoted(s: Shape, prefix: seq<string>)
    ensures forall l <- Flatten(s, prefix) :: Denoted(s, prefix, l)
    decreases s, Width(s) + 1
  {
    match s
    case Leaf(_, _) =>
    case Object(fields) => FieldsAreDenoted(s, |fields|, prefix);
    case Union(variants) =>
      VariantsAreDenoted(s, |variants|, prefix);
      FirstPerKeyKeeps(FlattenVariants(s, |variants|, prefix));
  }

  lemma {:induction false} FieldsAreDenoted(s: Shape, n: nat, prefix: seq<string>)
    requires s.Object? && n <= |s.fields|
    ensures forall l <- FlattenFields(s, n, prefix) :: Denoted(s, prefix, l)
    decreases s, n
  {
    if n > 0 {
      hide Flatten;
      var f := s.fields[n - 1];
      FieldsAreDenoted(s, n - 1, prefix);
      ListedAreDenoted(f.shape, prefix + [f.key]);
      forall l <- Flatten(f.shape, prefix + [f.key])
        ensures Denoted(s, prefix, l)
      {
        assert Denoted(f.shape, prefix + [f.key], l);
        var path := l.path[|prefix|..];
        assert path[0] == f.key && path[1..] == l.path[|prefix + [f.key]|..];
        assert f in s.fields;
      }
    }
  }

  lemma {:induction false} VariantsAreDenoted(s: Shape, n: nat, prefix: seq<string>)
    requires s.Union? && n <= |s.variants|
    ensures forall l <- FlattenVariants(s, n, prefix) :: Denoted(s, prefix, l)
    decreases s, n
  {
    if n > 0 {
      hide Flatten;
      VariantsAreDenoted(s, n - 1, prefix);
      ListedAreDenoted(s.variants[n - 1], prefix);
      forall l <- Flatten(s.variants[n - 1], prefix)
        ensures Denoted(s, prefix, l)
      {
        assert Denoted(s.variants[n - 1], prefix, l);
        assert s.variants[n - 1] in s.variants;
      }
    }
  }

  /** What is kept was there, every dotted path is kept once, and none is lost. */
  lemma {:induction false} FirstPerKeyKeeps(leaves: seq<Listed>)
    ensures var out := FirstPerKey(leaves);
            && (forall l <- out :: l in leaves)
            && (forall l <- leaves :: KeyTaken(out, l))
            && (forall j, k :: 0 <= j < k < |out| ==> Join(out[j].path) != Join(out[k].path))
    decreases |leaves|
  {
    hide Join;
    if leaves != [] {
      var init, last := leaves[..|leaves| - 1], leaves[|leaves| - 1];
      FirstPerKeyKeeps(init);
      assert leaves == init + [last];
      var before := FirstPerKey(init);
      forall l <- leaves
        ensures KeyTaken(FirstPerKey(leaves), l)
      {
        if l in init {
          var k :| 0 <= k < |before| && Join(before[k].path) == Join(l.path);
          assert FirstPerKey(leaves)[k] == before[k];
        } else if !KeyTaken(before, last) {
          assert FirstPerKey(leaves)[|before|] == last;
        }
      }
    }
  }

  /* ---- No path is listed twice ---- */

  ghost predicate DistinctPaths(out: seq<Listed>) {
    forall j, k :: 0 <= j < k < |out| ==> out[j].path != out[k].path
  }

  lemma {:induction false} ListedOnce(s: Shape, prefix: seq<string>)
    requires Proper(s)
    ensures DistinctPaths(Flatten(s, prefix))
    decreases s, Width(s) + 1
  {
    match s
    case Leaf(_, _) =>
    case Object(fields) => FieldsListedOnce(s, |fields|, prefix);
    case Union(variants) =>
      KeptPathsAreDistinct(FlattenVariants(s, |variants|, prefix));
  }

  lemma KeptPathsAreDistinct(leaves: seq<Listed>)
    ensures DistinctPaths(FirstPerKey(leaves))
  {
    hide Join, FirstPerKey;
    FirstPerKeyKeeps(leaves);
  }

  lemma {:induction false} FieldsListedOnce(s: Shape, n: nat, prefix: seq<string>)
    requires Proper(s) && s.Object? && n <= |s.fields|
    ensures DistinctPaths(FlattenFields(s, n, prefix))
    ensures forall l <- FlattenFields(s, n, prefix) ::
      |l.path| > |prefix| && exists i :: 0 <= i < n && s.fields[i].key == l.path[|prefix|]
    decreases s, n
  {
    if n > 0 {
      hide Flatten, HasLeaf;
      var f := s.fields[n - 1];
      FieldsListedOnce(s, n - 1, prefix);
      ListedOnce(f.shape, prefix + [f.key]);
      ListedAreDenoted(f.shape, prefix + [f.key]);
      forall l <- Flatten(f.shape, prefix + [f.key])
        ensures |l.path| > |prefix| && l.path[|prefix|] == f.key
      {
        assert Denoted(f.shape, prefix + [f.key], l);
        assert (prefix + [f.key])[|prefix|] == f.key;
      }
    }
  }

  /* ---- In which order, and whose leaf wins ---- */

  lemma {:induction false} FieldsAlone(s: Shape, t: Shape, n: nat, prefix: seq<string>)
    requires s.Object? && t.Object? && n <= |s.fields| && n <= |t.fields| && s.fields[..n] == t.fields[..n]
    ensures FlattenFields(s, n, prefix) == FlattenFields(t, n, prefix)
    decreases n
  {
    if n > 0 {
      assert s.fields[..n - 1] == s.fields[..n][..n - 1] && t.fields[..n - 1] == t.fields[..n][..n - 1];
      assert s.fields[n - 1] == s.fields[..n][n - 1] == t.fields[n - 1];
      FieldsAlone(s, t, n - 1, prefix);
    }
  }

  /** Fields are listed in the order they are declared in, each below its own key. */
  lemma FieldsInOrder(fields: seq<Field>, f: Field, prefix: seq<string>)
    ensures Flatten(Object([]), prefix) == []
    ensures Flatten(Object(fields + [f]), prefix)
            == Flatten(Object(fields), prefix) + Flatten(f.shape, prefix + [f.key])
  {
    FieldsAlone(Object(fields + [f]), Object(fields), |fields|, prefix);
    assert Object(fields + [f]).fields[|fields|] == f;
  }

  lemma {:induction false} VariantsAlone(s: Shape, t: Shape, n: nat, prefix: seq<string>)
    requires s.Union? && t.Union? && n <= |s.variants| && n <= |t.variants| && s.variants[..n] == t.variants[..n]
    ensures FlattenVariants(s, n, prefix) == FlattenVariants(t, n, prefix)
    decreases n
  {
    if n > 0 {
      assert s.variants[..n - 1] == s.variants[..n][..n - 1] && t.variants[..n - 1] == t.variants[..n][..n - 1];
      assert s.variants[n - 1] == s.variants[..n][n - 1] == t.variants[n - 1];
      VariantsAlone(s, t, n - 1, prefix);
    }
  }

  /** `more` is `out` and then those of `added` whose dotted path is new, in order. */
  ghost predicate Extends(out: seq<Listed>, added: seq<Listed>, more: seq<Listed>)
    decreases |added|
  {
    if added == [] then more == out
    else if KeyTaken(out, added[0]) then Extends(out, added[1..], more)
    else Extends(out + [added[0]], added[1..], more)
  }

  lemma {:induction false} KeptExtend(leaves: seq<Listed>, added: seq<Listed>)
    ensures Extends(FirstPerKey(leaves), added, FirstPerKey(leaves + added))
    decreases |added|
  {
    if added == [] {
      assert leaves + added == leaves;
    } else {
      assert leaves + added == (leaves + [added[0]]) + added[1..];
      KeepOneMore(leaves, added[0]);
      KeptExtend(leaves + [added[0]], added[1..]);
    }
  }

  /** A further variant only adds, at the end, leaves with new paths: of leaves that share one, the first is listed. */
  lemma LaterVariantsOnlyAdd(variants: seq<Shape>, v: Shape, prefix: seq<string>)
    ensures Flatten(Union([]), prefix) == []
    ensures Extends(Flatten(Union(variants), prefix), Flatten(v, prefix), Flatten(Union(variants + [v]), prefix))
  {
    VariantsAlone(Union(variants + [v]), Union(variants), |variants|, prefix);
    assert Union(variants + [v]).variants[|variants|] == v;
    KeptExtend(FlattenVariants(Union(variants), |variants|, prefix), Flatten(v, prefix));
  }

  /* ---- Which paths are listed ---- */

  ghost predicate Complete(s: Shape, prefix: seq<string>) {
    forall path :: HasPath(s, path) ==> Lists(Flatten(s, prefix), prefix + path)
  }

  /** Different leaf paths of the shape look different once dotted. */
  ghost predicate NoClash(s: Shape, prefix: seq<string>) {
    forall p, q :: HasPath(s, p) && HasPath(s, q) && Join(prefix + p) == Join(prefix + q) ==> p == q
  }

  lemma {:induction false} VariantsListAll(s: Shape, n: nat, prefix: seq<string>, v: Shape, path: seq<string>)
    requires s.Union? && n <= |s.variants| && v in s.variants[..n]
    requires Complete(v, prefix) && HasPath(v, path)
    ensures Lists(FlattenVariants(s, n, prefix), prefix + path)
    decreases n
  {
    hide Flatten, HasPath;
    var before, last := FlattenVariants(s, n - 1, prefix), Flatten(s.variants[n - 1], prefix);
    if v in s.variants[..n - 1] {
      VariantsListAll(s, n - 1, prefix, v, path);
      var k :| 0 <= k < |before| && before[k].path == prefix + path;
      assert (before + last)[k] == before[k];
    } else {
      assert v == s.variants[n - 1];
      var k :| 0 <= k < |last| && last[k].path == prefix + path;
      assert (before + last)[|before| + k] == last[k];
    }
  }

  /** A union whose variants are flattened completely is itself, exactly when no two paths clash. */
  lemma UnionIsCompleteIff(s: Shape, prefix: seq<string>)
    requires s.Union? && forall v <- s.variants :: Complete(v, prefix)
    ensures Complete(s, prefix) <==> NoClash(s, prefix)
  {
    hide Join;
    var all := FlattenVariants(s, |s.variants|, prefix);
    var out := Flatten(s, prefix);
    assert out == FirstPerKey(all);
    FirstPerKeyKeeps(all);
    VariantsAreDenoted(s, |s.variants|, prefix);
    hide Flatten, FirstPerKey, FlattenVariants;
    if Complete(s, prefix) {
      forall p, q | HasPath(s, p) && HasPath(s, q) && Join(prefix + p) == Join(prefix + q)
        ensures p == q
      {
        var j :| 0 <= j < |out| && out[j].path == prefix + p;
        var k :| 0 <= k < |out| && out[k].path == prefix + q;
        assert j == k;
        assert (prefix + p)[|prefix|..] == p && (prefix + q)[|prefix|..] == q;
      }
    }
    if NoClash(s, prefix) {
      forall p | HasPath(s, p)
        ensures Lists(out, prefix + p)
      {
        var k := UnionLists(s, prefix, all, out, p);
        assert out[k].path == prefix + p;
      }
    }
  }

  /** The leaf kept for a path of the union is that path's own when nothing clashes. */
  lemma UnionLists(s: Shape, prefix: seq<string>, all: seq<Listed>, out: seq<Listed>, p: seq<string>) returns (k: nat)
    requires s.Union? && (forall v <- s.variants :: Complete(v, prefix))
    requires all == FlattenVariants(s, |s.variants|, prefix)
    requires (forall l <- out :: Denoted(s, prefix, l)) && (forall l <- all :: KeyTaken(out, l))
    requires NoClash(s, prefix) && HasPath(s, p)
    ensures k < |out| && out[k].path == prefix + p
  {
    hide Join, Complete, FlattenVariants;
    var info :| HasLeaf(s, p, info);
    var v :| v in s.variants && HasLeaf(v, p, info);
    assert HasPath(v, p);
    assert s.variants[..|s.variants|] == s.variants;
    VariantsListAll(s, |s.variants|, prefix, v, p);
    var i :| 0 <= i < |all| && all[i].path == prefix + p;
    assert all[i] in all;
    k :| 0 <= k < |out| && Join(out[k].path) == Join(all[i].path);
    assert Denoted(s, prefix, out[k]);
    var q := out[k].path[|prefix|..];
    assert out[k].path == prefix + q && HasPath(s, q);
  }

  /* ---- Keys without dots ---- */

  predicate DotFree(key: string) {
    key != "" && '.' !in key
  }

  predicate AllDotFree(path: seq<string>) {
    forall k <- path :: DotFree(k)
  }

  lemma {:induction false} SplitJoins(path: seq<string>)
    requires AllDotFree(path) && path != []
    ensures Split(Join(path)) == path && Join(path) != ""
  {
    assert path[0] in path;
    if |path| == 1 {
      SplitWord(path[0], "");
      assert path == [path[0]];
    } else {
      assert forall k <- path[1..] :: k in path;
      SplitJoins(path[1..]);
      SplitWord(path[0], Join(path[1..]));
      assert path == [path[0]] + path[1..];
    }
  }

  /** Dotted paths tell paths of non-empty dot-free keys apart. */
  lemma JoinIsInjective(p: seq<string>, q: seq<string>)
    requires AllDotFree(p) && AllDotFree(q) && Join(p) == Join(q)
    ensures p == q
  {
    if p != [] {
      SplitJoins(p);
    }
    if q != [] {
      SplitJoins(q);
    }
  }

  lemma {:induction false} PathKeys(s: Shape, path: seq<string>, info: Info, ok: string -> bool)
    requires AllKeys(s, ok) && HasLeaf(s, path, info)
    ensures forall k <- path :: ok(k)
    decreases s
  {
    match s
    case Leaf(_, _) =>
    case Object(fields) =>
      var f :| f in fields && f.key == path[0] && HasLeaf(f.shape, path[1..], info);
      PathKeys(f.shape, path[1..], info, ok);
      assert path == [path[0]] + path[1..];
    case Union(variants) =>
      var v :| v in variants && HasLeaf(v, path, info);
      PathKeys(v, path, info, ok);
  }

  lemma DotFreeNoClash(s: Shape, prefix: seq<string>)
    requires AllKeys(s, DotFree) && AllDotFree(prefix)
    ensures NoClash(s, prefix)
  {
    hide HasLeaf, Join, AllKeys, DotFree;
    forall p, q | HasPath(s, p) && HasPath(s, q) && Join(prefix + p) == Join(prefix + q)
      ensures p == q
    {
      var l, m :| HasLeaf(s, p, l) && HasLeaf(s, q, m);
      PathKeys(s, p, l, DotFree);
      PathKeys(s, q, m, DotFree);
      JoinIsInjective(prefix + p, prefix + q);
      assert (prefix + p)[|prefix|..] == p && (prefix + q)[|prefix|..] == q;
    }
  }

  /** With non-empty dot-free keys the flattening lists every leaf path the shape denotes. */
  lemma {:induction false} DotFreeIsComplete(s: Shape, prefix: seq<string>)
    requires AllKeys(s, DotFree) && AllDotFree(prefix)
    ensures Complete(s, prefix)
    decreases s
  {
    match s
    case Leaf(_, _) =>
      LeafIsComplete(s, prefix);
    case Object(fields) =>
      hide DotFree;
      forall f <- fields
        ensures Complete(f.shape, prefix + [f.key])
      {
        DotFreeIsComplete(f.shape, prefix + [f.key]);
      }
      ObjectIsComplete(s, prefix);
    case Union(variants) =>
      forall v <- variants
        ensures Complete(v, prefix)
      {
        DotFreeIsComplete(v, prefix);
      }
      DotFreeNoClash(s, prefix);
      UnionIsCompleteIff(s, prefix);
  }

  lemma ObjectIsComplete(s: Shape, prefix: seq<string>)
    requires s.Object? && forall f <- s.fields :: Complete(f.shape, prefix + [f.key])
    ensures Complete(s, prefix)
  {
    forall path | HasPath(s, path)
      ensures Lists(Flatten(s, prefix), prefix + path)
    {
      var info :| HasLeaf(s, path, info);
      var f :| f in s.fields && f.key == path[0] && HasLeaf(f.shape, path[1..], info);
      var i :| 0 <= i < |s.fields| && s.fields[i] == f;
      assert HasPath(f.shape, path[1..]);
      assert prefix + [f.key] + path[1..] == prefix + path;
      FieldsListAll(s, |s.fields|, prefix, i, prefix + path);
    }
  }

  lemma {:induction false} FieldsListAll(s: Shape, n: nat, prefix: seq<string>, i: nat, path: seq<string>)
    requires s.Object? && i < n <= |s.fields|
    requires Lists(Flatten(s.fields[i].shape, prefix + [s.fields[i].key]), path)
    ensures Lists(FlattenFields(s, n, prefix), path)
    decreases n
  {
    hide Flatten;
    var f := s.fields[n - 1];
    var before, last := FlattenFields(s, n - 1, prefix), Flatten(f.shape, prefix + [f.key]);
    if i < n - 1 {
      FieldsListAll(s, n - 1, prefix, i, path);
      var k :| 0 <= k < |before| && before[k].path == path;
      assert (before + last)[k] == before[k];
    } else {
      var k :| 0 <= k < |last| && last[k].path == path;
      assert (before + last)[|before| + k] == last[k];
    }
  }

  /** Each denoted leaf path is listed exactly once, and nothing else is. */
  lemma FlattenIsExact(s: Shape)
    requires Proper(s) && AllKeys(s, DotFree)
    ensures forall path :: HasPath(s, path) <==> Lists(Flatten(s, []), path)
    ensures DistinctPaths(Flatten(s, []))
  {
    hide Flatten, HasLeaf, DotFree, Proper, AllKeys;
    DotFreeIsComplete(s, []);
    ListedOnce(s, []);
    ListedAreDenoted(s, []);
    forall path
      ensures HasPath(s, path) <==> Lists(Flatten(s, []), path)
    {
      assert [] + path == path;
      if Lists(Flatten(s, []), path) {
        var k :| 0 <= k < |Flatten(s, [])| && Flatten(s, [])[k].path == path;
        assert Denoted(s, [], Flatten(s, [])[k]);
        assert path[0..] == path;
      }
    }
  }

  /** At the root an empty key is confused with no key at all: one of the two leaves is not listed. */
  lemma EmptyKeyIsLost()
    ensures var whole, inner := Leaf(StringLeaf, None), Leaf(NumberLeaf, None);
            !Complete(Union([whole, Object([Field("", inner)])]), [])
  {
    var whole, inner := Leaf(StringLeaf, None), Leaf(NumberLeaf, None);
    var keyed := Object([Field("", inner)]);
    var s := Union([whole, keyed]);
    assert HasLeaf(whole, [], Info(StringLeaf, None)) && whole in s.variants;
    assert HasLeaf(inner, [""][1..], Info(NumberLeaf, None)) && Field("", inner) in keyed.fields;
    assert HasLeaf(keyed, [""], Info(NumberLeaf, None)) && keyed in s.variants;
    assert HasLeaf(s, [], Info(StringLeaf, None)) && HasLeaf(s, [""], Info(NumberLeaf, None));
    assert HasPath(s, []) && HasPath(s, [""]);
    assert Join([] + []) == "" == Join([] + [""]);
    assert !NoClash(s, []);
    LeafIsComplete(inner, [] + [""]);
    ObjectIsComplete(keyed, []);
    LeafIsComplete(whole, []);
    UnionIsCompleteIff(s, []);
  }

  lemma LeafIsComplete(s: Shape, prefix: seq<string>)
    requires s.Leaf?
    ensures Complete(s, prefix)
  {
    assert Flatten(s, prefix)[0].path == prefix + [];
  }

  /* ---- Values of a shape, and the tokens picked for its leaves ---- */

  predicate HasType(v: Json, leaf: LeafType) {
    match leaf
    case StringLeaf => v.JString?
    case NumberLeaf => v.JNumber?
    case BooleanLeaf => v.JBool?
    case JsonLeaf => true
  }

  /** A value with everything the shape promises; it may have more. */
  predicate Conforms(v: Json, s: Shape)
    decreases s
  {
    match s
    case Leaf(leaf, _) => HasType(v, leaf)
    case Object(fields) => v.JObject? && forall f <- fields :: f.key in v.fields && Conforms(v.fields[f.key], f.shape)
    case Union(variants) => exists x <- variants :: Conforms(v, x)
  }

  predicate UnionFree(s: Shape)
    decreases s
  {
    match s
    case Leaf(_, _) => true
    case Object(fields) => forall f <- fields :: UnionFree(f.shape)
    case Union(_) => false
  }

  /** Following a denoted path into a value of the shape reaches a value of the leaf's type. */
  lemma {:induction false} LookupReachesLeaf(v: Json, s: Shape, path: seq<string>, info: Info)
    requires UnionFree(s) && Conforms(v, s) && HasLeaf(s, path, info)
    ensures LookupDeep(Some(v), path).Some? && HasType(LookupDeep(Some(v), path).value, info.leaf)
    decreases s
  {
    if s.Object? {
      var f :| f in s.fields && f.key == path[0] && HasLeaf(f.shape, path[1..], info);
      LookupReachesLeaf(v.fields[f.key], f.shape, path[1..], info);
    }
  }

  /** The same for every listed leaf. */
  lemma ListedLeavesAreReached(v: Json, s: Shape, l: Listed)
    requires UnionFree(s) && Conforms(v, s) && l in Flatten(s, [])
    ensures LookupDeep(Some(v), l.path).Some? && HasType(LookupDeep(Some(v), l.path).value, l.info.leaf)
  {
    hide UnionFree, Conforms, HasLeaf, Flatten, LookupDeep;
    ListedAreDenoted(s, []);
    assert Denoted(s, [], l) && l.path[0..] == l.path;
    LookupReachesLeaf(v, s, l.path, l.info);
  }

  /** The token the picker inserts for a leaf of the previous step's output. */
  function PickedToken(path: seq<string>): string {
    PREFIX + Join(["previousStep"] + path)
  }

  lemma {:induction false} JoinHasSegments(path: seq<string>)
    requires path != [] && AllSegments(path)
    ensures Split(Join(path)) == path
  {
    assert forall k <- path :: IsSegment(k);
    SplitJoins(path);
  }

  lemma PickedIsToken(path: seq<string>)
    requires path != [] && AllSegments(path)
    ensures MatchAt(PickedToken(path), 0) == Some(|PickedToken(path)|)
    ensures Split(PickedToken(path)[5..]) == ["previousStep"] + path
  {
    var t := PickedToken(path);
    var full := ["previousStep"] + path;
    JoinHasSegments(full);
    assert t[..5] == PREFIX && t[5..] == Join(full) && t[0..5] == t[..5] && t[5..|t|] == t[5..];
    hide Split, Join, AllSegments, MatchAt;
    assert IsToken(t, 0, |t|);
    MatchIsLongestToken(t, 0);
  }

  /** The picked token of a listed leaf is replaced by the value the step left there. */
  lemma PickedTokenResolves(
    s: Shape, l: Listed, v: Json, c: Contact, x: Extras, render: Json -> string)
    requires UnionFree(s) && AllKeys(s, IsSegment) && Conforms(v, s) && l in Flatten(s, []) && l.path != []
    requires x.previousStepId.Some? && x.previousStepId.value != "" && x.stepOutputs.Some?
    requires x.previousStepId.value in x.stepOutputs.value && x.stepOutputs.value[x.previousStepId.value] == v
    ensures LookupDeep(Some(v), l.path).Some? && HasType(LookupDeep(Some(v), l.path).value, l.info.leaf)
    ensures ResolveFieldTokens(PickedToken(l.path), c, x, render)
            == StringifyForToken(LookupDeep(Some(v), l.path), render)
  {
    ListedLeavesAreReached(v, s, l);
    SegmentPath(s, l);
    PickedIsToken(l.path);
    WholeTokenResolves(l.path, v, c, x, render);
  }

  lemma SegmentPath(s: Shape, l: Listed)
    requires AllKeys(s, IsSegment) && l in Flatten(s, [])
    ensures AllSegments(l.path)
  {
    hide Flatten, HasLeaf, AllKeys, IsSegment;
    ListedAreDenoted(s, []);
    assert Denoted(s, [], l) && l.path[0..] == l.path;
    PathKeys(s, l.path, l.info, IsSegment);
  }

  lemma WholeTokenResolves(path: seq<string>, v: Json, c: Contact, x: Extras, render: Json -> string)
    requires MatchAt(PickedToken(path), 0) == Some(|PickedToken(path)|)
    requires Split(PickedToken(path)[5..]) == ["previousStep"] + path
    requires x.previousStepId.Some? && x.previousStepId.value != "" && x.stepOutputs.Some?
    requires x.previousStepId.value in x.stepOutputs.value && x.stepOutputs.value[x.previousStepId.value] == v
    ensures ResolveFieldTokens(PickedToken(path), c, x, render) == StringifyForToken(LookupDeep(Some(v), path), render)
  {
    hide MatchAt, Split, LookupDeep, StringifyForToken, PickedToken;
    var t := PickedToken(path);
    var f := (p: string) => ResolvePath(Split(p), c, x, render);
    assert t[5..|t|] == t[5..];
    assert (["previousStep"] + path)[1..] == path;
    assert Replace(t, |t|, f) == "";
    assert Replace(t, 0, f) == f(t[5..]) + "";
  }

  /** Picking a shape's root leaf inserts a token of one segment, which is never replaced. */
  lemma PickedRootStays(c: Contact, x: Extras, render: Json -> string)
    ensures ResolveFieldTokens(PickedToken([]), c, x, render) == PickedToken([]) == "$var.previousStep"
  {
    hide ResolvePath, MatchAt;
    var t := "$var.previousStep";
    assert ["previousStep"] + [] == ["previousStep"];
    assert PickedToken([]) == t;
    forall i: nat | i < |t|
      ensures MatchAt(t, i).None?
    {
      if MatchAt(t, i).Some? {
        DollarFirst(t, i);
        MatchIsLongestToken(t, 0);
        var path := t[5..MatchAt(t, 0).value];
        assert forall k :: 5 <= k < |t| ==> t[k] != '.';
        SplitWord(path, "");
      }
    }
    NoTokenStays(t, 0, path => ResolvePath(Split(path), c, x, render));
    assert t[0..] == t;
  }
}
