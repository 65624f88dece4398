/** The environment variables of the main container: the list the spec declares, with the names the
    controller owns settled (operator/internal/controller/devenvironment_controller.go:1767-1931, 2208-2260). */
module EnvVars {
  import opened Wrappers
  import opened Strings
  import opened DevSpec

  const NOTEBOOK_ARGS := "NOTEBOOK_ARGS"
  const BASE_URL_FLAG := "--ServerApp.base_url="
  const ALLOW_ROOT := "--allow-root"
  const TOKEN := "JUPYTER_TOKEN"
  const TYPE := "CUBSTACK_TYPE"
  const HOME := "HOME"
  const NB_USER := "NB_USER"
  const NB_UID := "NB_UID"
  const NB_GID := "NB_GID"

  /** Where a value comes from when it is not written out. */
  datatype Source = SecretKey(secret: string, key: string) | Elsewhere(reference: string)

  datatype EnvVar = EnvVar(name: string, value: string, source: Option<Source>)

  /** `root`: the container runs as uid 0.  `home`: where the workspace claim mounts, if there is one. */
  datatype Container = Container(envType: EnvType, namespace: string, name: string, root: bool, home: Option<string>)

  function WebPath(c: Container): string { "/dev/" + c.namespace + "/" + c.name + "/" }

  // ------------------------------------------------------------------ list operations

  /** slices.DeleteFunc by name. */
  function Without(vs: seq<EnvVar>, names: set<string>): seq<EnvVar> {
    if vs == [] then []
    else
      var last := vs[|vs| - 1];
      Without(vs[..|vs| - 1], names) + if last.name in names then [] else [last]
  }

  method DeleteNamed(vs: seq<EnvVar>, names: set<string>) returns (kept: seq<EnvVar>)
    ensures kept == Without(vs, names)
  {
    kept := [];
    for i := 0 to |vs|
      invariant kept == Without(vs[..i], names)
    {
      assert vs[..i + 1][..i] == vs[..i];
      if vs[i].name !in names { kept := kept + [vs[i]]; }
    }
    assert vs[..|vs|] == vs;
  }

  /** The first entry of that name. */
  function Find(vs: seq<EnvVar>, name: string): Option<EnvVar> {
    if vs == [] then None else if vs[0].name == name then Some(vs[0]) else Find(vs[1..], name)
  }

  ghost predicate UniqueNames(vs: seq<EnvVar>) {
    forall i, j :: 0 <= i < j < |vs| ==> vs[i].name != vs[j].name
  }

  /** The arguments of a flag list, without the prefix flag the controller owns. */
  function WithoutBaseUrl(args: seq<string>): seq<string> {
    if args == [] then []
    else
      var last := args[|args| - 1];
      WithoutBaseUrl(args[..|args| - 1]) + if BASE_URL_FLAG <= last then [] else [last]
  }

  method DropBaseUrl(args: seq<string>) returns (kept: seq<string>)
    ensures kept == WithoutBaseUrl(args)
  {
    kept := [];
    for i := 0 to |args|
      invariant kept == WithoutBaseUrl(args[..i])
    {
      assert args[..i + 1][..i] == args[..i];
      if !(BASE_URL_FLAG <= args[i]) { kept := kept + [args[i]]; }
    }
    assert args[..|args|] == args;
  }

  function BaseUrlArgs(value: string, path: string): string {
    TrimSpace(Join(WithoutBaseUrl(Fields(value)) + [BASE_URL_FLAG + path]))
  }

  function AllowRootArgs(value: string): string {
    if ALLOW_ROOT in Fields(value) then value else TrimSpace(value + " " + ALLOW_ROOT)
  }

  /** The first NOTEBOOK_ARGS entry takes a new value, or one is appended. */
  function Merge(vs: seq<EnvVar>, revise: string -> string, added: string): seq<EnvVar> {
    if vs == [] then [EnvVar(NOTEBOOK_ARGS, added, None)]
    else if vs[0].name == NOTEBOOK_ARGS then [vs[0].(value := revise(vs[0].value))] + vs[1..]
    else [vs[0]] + Merge(vs[1..], revise, added)
  }

  function WithBaseUrl(vs: seq<EnvVar>, path: string): seq<EnvVar> {
    Merge(vs, value => BaseUrlArgs(value, path), BASE_URL_FLAG + path)
  }

  function RootAccount(): seq<EnvVar> {
    [EnvVar(NB_USER, "root", None), EnvVar(NB_UID, "0", None), EnvVar(NB_GID, "0", None)]
  }

  function WithRootLauncher(vs: seq<EnvVar>): seq<EnvVar> {
    Merge(Without(vs, {NB_USER, NB_UID, NB_GID}) + RootAccount(), AllowRootArgs, ALLOW_ROOT)
  }

  /** strings.ReplaceAll(path, "$", "$$"). */
  function Escape(path: string): string {
    if path == "" then "" else (if path[0] == '$' then "$$" else [path[0]]) + Escape(path[1..])
  }

  function WithHome(vs: seq<EnvVar>, path: string): seq<EnvVar> {
    [EnvVar(HOME, Escape(path), None)] + Without(vs, {HOME})
  }

  function TokenVar(c: Container): EnvVar { EnvVar(TOKEN, "", Some(SecretKey(c.name + "-jupyter-token", "token"))) }

  function Notebook(c: Container, vs: seq<EnvVar>): seq<EnvVar> {
    var served := WithBaseUrl(Without(vs, {TOKEN}) + [TokenVar(c)], WebPath(c));
    if c.root then WithRootLauncher(served) else served
  }

  function Typed(c: Container, vs: seq<EnvVar>): seq<EnvVar> {
    if c.envType == VSCode then vs else Without(vs, {TYPE}) + [EnvVar(TYPE, TypeName(c.envType), None)]
  }

  function Housed(c: Container, vs: seq<EnvVar>): seq<EnvVar> {
    if c.home.None? then vs else WithHome(vs, c.home.value)
  }

  /** The list desiredPodSpec puts on the container. */
  function Rendered(c: Container, declared: seq<EnvVar>): seq<EnvVar> {
    Housed(c, Typed(c, if c.envType == Jupyter then Notebook(c, declared) else declared))
  }

  lemma {:induction false} MergeAt(vs: seq<EnvVar>, i: nat, revise: string -> string, added: string)
    requires i < |vs| && vs[i].name == NOTEBOOK_ARGS && forall j :: 0 <= j < i ==> vs[j].name != NOTEBOOK_ARGS
    ensures Merge(vs, revise, added) == vs[i := vs[i].(value := revise(vs[i].value))]
  {
    if i > 0 {
      assert vs[1..][i - 1] == vs[i];
      MergeAt(vs[1..], i - 1, revise, added);
    }
  }

  lemma {:induction false} MergeNone(vs: seq<EnvVar>, revise: string -> string, added: string)
    requires forall j :: 0 <= j < |vs| ==> vs[j].name != NOTEBOOK_ARGS
    ensures Merge(vs, revise, added) == vs + [EnvVar(NOTEBOOK_ARGS, added, None)]
  {
    if vs != [] { MergeNone(vs[1..], revise, added); }
  }

  method WithNotebookBaseUrl(vs: seq<EnvVar>, path: string) returns (out: seq<EnvVar>)
    ensures out == WithBaseUrl(vs, path)
  {
    hide Merge, TrimSpace, Join, Fields, WithoutBaseUrl;
    ghost var revise := value => BaseUrlArgs(value, path);
    for i := 0 to |vs|
      invariant forall j :: 0 <= j < i ==> vs[j].name != NOTEBOOK_ARGS
    {
      if vs[i].name == NOTEBOOK_ARGS {
        var kept := DropBaseUrl(Fields(vs[i].value));
        MergeAt(vs, i, revise, BASE_URL_FLAG + path);
        return vs[i := vs[i].(value := TrimSpace(Join(kept + [BASE_URL_FLAG + path])))];
      }
    }
    MergeNone(vs, revise, BASE_URL_FLAG + path);
    return vs + [EnvVar(NOTEBOOK_ARGS, BASE_URL_FLAG + path, None)];
  }

  method WithRootLauncherEnv(vs: seq<EnvVar>) returns (out: seq<EnvVar>)
    ensures out == WithRootLauncher(vs)
  {
    hide Merge, TrimSpace, Fields;
    var kept := DeleteNamed(vs, {NB_USER, NB_UID, NB_GID});
    var all := kept + RootAccount();
    for i := 0 to |all|
      invariant forall j :: 0 <= j < i ==> all[j].name != NOTEBOOK_ARGS
    {
      if all[i].name == NOTEBOOK_ARGS {
        MergeAt(all, i, AllowRootArgs, ALLOW_ROOT);
        if ALLOW_ROOT in Fields(all[i].value) { return all; }
        return all[i := all[i].(value := TrimSpace(all[i].value + " " + ALLOW_ROOT))];
      }
    }
    MergeNone(all, AllowRootArgs, ALLOW_ROOT);
    return all + [EnvVar(NOTEBOOK_ARGS, ALLOW_ROOT, None)];
  }

  /** The environment part of desiredPodSpec. */
  method DesiredEnv(c: Container, declared: seq<EnvVar>) returns (vs: seq<EnvVar>)
    ensures vs == Rendered(c, declared)
  {
    hide WithBaseUrl, WithRootLauncher, Without, Escape;
    vs := declared;
    if c.envType == Jupyter {
      vs := DeleteNamed(vs, {TOKEN});
      vs := vs + [TokenVar(c)];
      vs := WithNotebookBaseUrl(vs, WebPath(c));
      if c.root { vs := WithRootLauncherEnv(vs); }
    }
    if c.envType != VSCode {
      vs := DeleteNamed(vs, {TYPE});
      vs := vs + [EnvVar(TYPE, TypeName(c.envType), None)];
    }
    if c.home.Some? {
      vs := DeleteNamed(vs, {HOME});
      vs := [EnvVar(HOME, Escape(c.home.value), None)] + vs;
    }
  }

  // ------------------------------------------------------------- what the list operations keep

  lemma {:induction false} WithoutAppend(xs: seq<EnvVar>, ys: seq<EnvVar>, names: set<string>)
    ensures Without(xs + ys, names) == Without(xs, names) + Without(ys, names)
  {
    if ys == [] {
      assert xs + ys == xs;
    } else {
      assert (xs + ys)[..|xs + ys| - 1] == xs + ys[..|ys| - 1];
      WithoutAppend(xs, ys[..|ys| - 1], names);
    }
  }

  lemma WithoutOne(v: EnvVar, names: set<string>)
    ensures Without([v], names) == if v.name in names then [] else [v]
  {
    assert [v][..0] == [];
  }

  lemma {:induction false} WithoutTwice(vs: seq<EnvVar>, a: set<string>, b: set<string>)
    ensures Without(Without(vs, a), b) == Without(vs, a + b)
  {
    if vs != [] {
      var init, last := vs[..|vs| - 1], vs[|vs| - 1];
      WithoutTwice(init, a, b);
      WithoutAppend(Without(init, a), if last.name in a then [] else [last], b);
      WithoutOne(last, b);
    }
  }

  lemma {:induction false} WithoutUnique(vs: seq<EnvVar>, names: set<string>)
    requires UniqueNames(vs)
    ensures UniqueNames(Without(vs, names))
    ensures forall i :: 0 <= i < |Without(vs, names)| ==>
              Without(vs, names)[i] in vs && Without(vs, names)[i].name !in names
  {
    if vs != [] {
      var init := vs[..|vs| - 1];
      WithoutUnique(init, names);
      forall i | 0 <= i < |Without(init, names)| ensures Without(init, names)[i].name != vs[|vs| - 1].name {
        assert Without(init, names)[i] in init;
      }
    }
  }

  lemma {:induction false} FindAppend(xs: seq<EnvVar>, ys: seq<EnvVar>, name: string)
    ensures Find(xs + ys, name) == if Find(xs, name).Some? then Find(xs, name) else Find(ys, name)
  {
    if xs == [] {
      assert xs + ys == ys;
    } else {
      assert (xs + ys)[1..] == xs[1..] + ys;
      FindAppend(xs[1..], ys, name);
    }
  }

  /** Dropping other names leaves an entry where it was. */
  lemma {:induction false} FindWithout(vs: seq<EnvVar>, names: set<string>, name: string)
    ensures Find(Without(vs, names), name) == if name in names then None else Find(vs, name)
  {
    if vs != [] {
      var init, last := vs[..|vs| - 1], vs[|vs| - 1];
      assert vs == init + [last];
      FindWithout(init, names, name);
      FindAppend(init, [last], name);
      FindAppend(Without(init, names), if last.name in names then [] else [last], name);
    }
  }

  lemma {:induction false} MergeShape(vs: seq<EnvVar>, revise: string -> string, added: string)
    ensures var out := Merge(vs, revise, added);
            && (forall i :: 0 <= i < |vs| ==> i < |out| && out[i].name == vs[i].name)
            && (Find(vs, NOTEBOOK_ARGS).Some? ==> |out| == |vs|)
            && (Find(vs, NOTEBOOK_ARGS).None? ==>
                  |out| == |vs| + 1 && out[|vs|].name == NOTEBOOK_ARGS && forall i :: 0 <= i < |vs| ==>
                    vs[i].name != NOTEBOOK_ARGS)
  {
    if vs != [] && vs[0].name != NOTEBOOK_ARGS { MergeShape(vs[1..], revise, added); }
  }

  lemma {:induction false} MergeFinds(vs: seq<EnvVar>, revise: string -> string, added: string)
    ensures Find(Merge(vs, revise, added), NOTEBOOK_ARGS)
            == match Find(vs, NOTEBOOK_ARGS)
               case Some(v) => Some(v.(value := revise(v.value)))
               case None => Some(EnvVar(NOTEBOOK_ARGS, added, None))
    ensures Without(Merge(vs, revise, added), {NOTEBOOK_ARGS}) == Without(vs, {NOTEBOOK_ARGS})
  {
    if vs == [] {
      WithoutOne(EnvVar(NOTEBOOK_ARGS, added, None), {NOTEBOOK_ARGS});
    } else {
      var head, rest := vs[0], vs[1..];
      assert vs == [head] + rest;
      WithoutAppend([head], rest, {NOTEBOOK_ARGS});
      WithoutOne(head, {NOTEBOOK_ARGS});
      if head.name == NOTEBOOK_ARGS {
        var revised := head.(value := revise(head.value));
        WithoutAppend([revised], rest, {NOTEBOOK_ARGS});
        WithoutOne(revised, {NOTEBOOK_ARGS});
      } else {
        MergeFinds(rest, revise, added);
        WithoutAppend([head], Merge(rest, revise, added), {NOTEBOOK_ARGS});
      }
    }
  }

  // ------------------------------------------------------------------------ the stages

  /** `out` has each name once, and is `vs` but for the names in `owned`: same entries, same order. */
  ghost predicate Settles(vs: seq<EnvVar>, out: seq<EnvVar>, owned: set<string>) {
    UniqueNames(out) && Without(out, owned) == Without(vs, owned)
  }

  lemma SettlesOthers(vs: seq<EnvVar>, out: seq<EnvVar>, owned: set<string>, name: string)
    requires Settles(vs, out, owned) && name !in owned
    ensures Find(out, name) == Find(vs, name)
  {
    FindWithout(vs, owned, name);
    FindWithout(out, owned, name);
  }

  lemma SettlesThen(a: seq<EnvVar>, b: seq<EnvVar>, c: seq<EnvVar>, o: set<string>, p: set<string>)
    requires Settles(a, b, o) && Settles(b, c, p)
    ensures Settles(a, c, o + p)
  {
    WithoutTwice(a, o, p);
    WithoutTwice(b, o, p);
    WithoutTwice(b, p, o);
    WithoutTwice(c, p, o);
    assert o + p == p + o;
  }

  lemma {:induction false} WithoutAll(vs: seq<EnvVar>, names: set<string>)
    requires forall i :: 0 <= i < |vs| ==> vs[i].name in names
    ensures Without(vs, names) == []
  {
    if vs != [] { WithoutAll(vs[..|vs| - 1], names); }
  }

  lemma {:induction false} FindAt(vs: seq<EnvVar>, i: nat)
    requires UniqueNames(vs) && i < |vs|
    ensures Find(vs, vs[i].name) == Some(vs[i])
  {
    if i > 0 {
      assert vs[1..][i - 1] == vs[i] && vs[0].name != vs[i].name;
      FindAt(vs[1..], i - 1);
    }
  }

  lemma ReplaceUnique(vs: seq<EnvVar>, own: seq<EnvVar>, names: set<string>)
    requires UniqueNames(vs) && UniqueNames(own) && forall i :: 0 <= i < |own| ==> own[i].name in names
    ensures UniqueNames(Without(vs, names) + own)
  {
    WithoutUnique(vs, names);
    hide Without;
    var kept, out := Without(vs, names), Without(vs, names) + own;
    forall i, j | 0 <= i < j < |out| ensures out[i].name != out[j].name {
      if i < |kept| {
        assert out[i] == kept[i] && kept[i].name !in names;
        if j < |kept| { assert out[j] == kept[j]; } else { assert out[j] == own[j - |kept|]; }
      } else {
        assert out[i] == own[i - |kept|] && out[j] == own[j - |kept|];
      }
    }
  }

  lemma ReplaceFinds(vs: seq<EnvVar>, own: seq<EnvVar>, names: set<string>, i: nat)
    requires UniqueNames(own) && i < |own| && own[i].name in names
    ensures Find(Without(vs, names) + own, own[i].name) == Some(own[i])
  {
    hide Find, Without;
    FindWithout(vs, names, own[i].name);
    FindAppend(Without(vs, names), own, own[i].name);
    FindAt(own, i);
  }

  /** Dropping names and appending the controller's own entries under them. */
  lemma ReplaceSettles(vs: seq<EnvVar>, own: seq<EnvVar>, names: set<string>)
    requires UniqueNames(vs) && UniqueNames(own) && forall i :: 0 <= i < |own| ==> own[i].name in names
    ensures Settles(vs, Without(vs, names) + own, names)
    ensures forall i :: 0 <= i < |own| ==> Find(Without(vs, names) + own, own[i].name) == Some(own[i])
  {
    hide Find, Without, UniqueNames;
    ReplaceUnique(vs, own, names);
    WithoutAll(own, names);
    WithoutAppend(Without(vs, names), own, names);
    WithoutTwice(vs, names, names);
    assert names + names == names;
    forall i | 0 <= i < |own| ensures Find(Without(vs, names) + own, own[i].name) == Some(own[i]) {
      ReplaceFinds(vs, own, names, i);
    }
  }

  lemma MergeSettles(vs: seq<EnvVar>, revise: string -> string, added: string)
    requires UniqueNames(vs)
    ensures Settles(vs, Merge(vs, revise, added), {NOTEBOOK_ARGS})
  {
    hide Merge, Find, Without;
    MergeShape(vs, revise, added);
    MergeFinds(vs, revise, added);
    var out := Merge(vs, revise, added);
    forall i, j | 0 <= i < j < |out| ensures out[i].name != out[j].name {
      if j < |vs| { assert out[j].name == vs[j].name; }
      assert out[i].name == vs[i].name;
    }
  }

  lemma HomeSettles(vs: seq<EnvVar>, path: string)
    requires UniqueNames(vs)
    ensures Settles(vs, WithHome(vs, path), {HOME})
    ensures Find(WithHome(vs, path), HOME) == Some(EnvVar(HOME, Escape(path), None))
  {
    var v := EnvVar(HOME, Escape(path), None);
    WithoutUnique(vs, {HOME});
    WithoutAppend([v], Without(vs, {HOME}), {HOME});
    WithoutTwice(vs, {HOME}, {HOME});
    WithoutOne(v, {HOME});
    assert {HOME} + {HOME} == {HOME};
  }

  // ------------------------------------------------------------------ the values it states

  /** Go's expansion of `$$` and `$(NAME)` in a value, with what each name stands for. */
  function Expand(s: string, lookup: string -> string): string
    decreases |s|
  {
    if |s| < 2 then s
    else if s[0] != '$' then [s[0]] + Expand(s[1..], lookup)
    else if s[1] == '$' then "$" + Expand(s[2..], lookup)
    else if s[1] != '(' then s[..2] + Expand(s[2..], lookup)
    else
      var close := IndexOf(s, ')');
      if close < 0 then "$(" + Expand(s[2..], lookup)
      else
        assert close > 1;
        lookup(s[2..close]) + Expand(s[close + 1..], lookup)
  }

  /** The kubelet reads the stated home back as the path the claim is mounted at. */
  lemma {:induction false} HomeExpandsBack(path: string, lookup: string -> string)
    ensures Expand(Escape(path), lookup) == path
  {
    if path != "" {
      HomeExpandsBack(path[1..], lookup);
      var rest := Escape(path[1..]);
      assert path == [path[0]] + path[1..];
      if path[0] == '$' {
        assert ("$$" + rest)[2..] == rest;
      } else {
        assert ([path[0]] + rest)[1..] == rest;
        if |rest| == 0 { assert path[1..] == ""; }
      }
    }
  }

  lemma {:induction false} BaseUrlDropped(args: seq<string>)
    requires forall i :: 0 <= i < |args| ==> IsField(args[i])
    ensures forall i :: 0 <= i < |WithoutBaseUrl(args)| ==> IsField(WithoutBaseUrl(args)[i])
    ensures ALLOW_ROOT in WithoutBaseUrl(args) <==> ALLOW_ROOT in args
  {
    if args != [] {
      BaseUrlDropped(args[..|args| - 1]);
      assert args == args[..|args| - 1] + [args[|args| - 1]];
      assert !(BASE_URL_FLAG <= ALLOW_ROOT) by { assert BASE_URL_FLAG[2] != ALLOW_ROOT[2]; }
    }
  }

  /** Fields joined by one space need no trimming. */
  lemma JoinTrimmed(fs: seq<string>)
    requires |fs| > 0 && forall i :: 0 <= i < |fs| ==> IsField(fs[i])
    ensures TrimSpace(Join(fs)) == Join(fs)
  {
    JoinEnds(fs);
  }

  lemma {:induction false} JoinEnds(fs: seq<string>)
    requires |fs| > 0 && forall i :: 0 <= i < |fs| ==> IsField(fs[i])
    ensures Join(fs) != "" && !IsSpace(Join(fs)[0]) && !IsSpace(Join(fs)[|Join(fs)| - 1])
  {
    if |fs| > 1 { JoinEnds(fs[1..]); }
  }

  lemma {:induction false} JoinSnoc(fs: seq<string>, f: string)
    requires |fs| > 0
    ensures Join(fs + [f]) == Join(fs) + " " + f
  {
    assert (fs + [f])[1..] == fs[1..] + [f];
    if |fs| > 1 { JoinSnoc(fs[1..], f); }
    else { assert fs[1..] + [f] == [f]; }
  }

  /** The flags a container reads: the declared ones but any base_url, the published prefix, and, for a
      root environment that does not carry it, --allow-root. */
  function Flags(declared: seq<string>, path: string, root: bool): seq<string> {
    WithoutBaseUrl(declared) + [BASE_URL_FLAG + path] + if root && ALLOW_ROOT !in declared then [ALLOW_ROOT] else []
  }

  lemma BaseUrlFlags(value: string, path: string)
    requires NoSpace(path)
    ensures BaseUrlArgs(value, path) == Join(Flags(Fields(value), path, false))
    ensures Fields(BaseUrlArgs(value, path)) == Flags(Fields(value), path, false)
  {
    var flags := Flags(Fields(value), path, false);
    BaseUrlDropped(Fields(value));
    assert IsField(BASE_URL_FLAG + path);
    assert forall i :: 0 <= i < |flags| ==> IsField(flags[i]);
    assert flags == WithoutBaseUrl(Fields(value)) + [BASE_URL_FLAG + path];
    JoinTrimmed(flags);
    FieldsJoin(flags, "");
    assert Join(flags) + "" == Join(flags);
  }

  lemma AllowRootFlags(value: string, path: string)
    requires NoSpace(path)
    ensures Fields(AllowRootArgs(BaseUrlArgs(value, path))) == Flags(Fields(value), path, true)
  {
    hide BaseUrlArgs, Join, TrimSpace, Fields;
    var flags, more := Flags(Fields(value), path, false), Flags(Fields(value), path, true);
    BaseUrlFlags(value, path);
    BaseUrlDropped(Fields(value));
    assert (BASE_URL_FLAG + path)[2] != ALLOW_ROOT[2];
    assert ALLOW_ROOT in flags <==> ALLOW_ROOT in Fields(value);
    if ALLOW_ROOT !in flags {
      assert IsField(ALLOW_ROOT) && IsField(BASE_URL_FLAG + path);
      assert more == flags + [ALLOW_ROOT];
      JoinSnoc(flags, ALLOW_ROOT);
      JoinTrimmed(more);
      FieldsJoin(more, "");
      assert Join(more) + "" == Join(more);
    } else {
      assert more == flags;
    }
  }

  // ------------------------------------------------------------------------- the whole list

  function NotebookOwned(c: Container): set<string> {
    {TOKEN, NOTEBOOK_ARGS} + if c.root then {NB_USER, NB_UID, NB_GID} else {}
  }

  /** The names the controller states a value for. */
  function Owned(c: Container): set<string> {
    (if c.envType == Jupyter then NotebookOwned(c) else {})
    + (if c.envType != VSCode then {TYPE} else {})
    + if c.home.Some? then {HOME} else {}
  }

  function DeclaredFlags(vs: seq<EnvVar>): seq<string> {
    match Find(vs, NOTEBOOK_ARGS) case Some(v) => Fields(v.value) case None => []
  }

  ghost predicate NotebookStated(c: Container, declared: seq<EnvVar>, vs: seq<EnvVar>) {
    && Find(vs, TOKEN) == Some(TokenVar(c))
    && Find(vs, NOTEBOOK_ARGS).Some?
    && Fields(Find(vs, NOTEBOOK_ARGS).value.value) == Flags(DeclaredFlags(declared), WebPath(c), c.root)
    && (c.root ==> forall i :: 0 <= i < 3 ==> Find(vs, RootAccount()[i].name) == Some(RootAccount()[i]))
  }

  lemma WebPathHasNoSpace(c: Container)
    requires NoSpace(c.namespace) && NoSpace(c.name)
    ensures NoSpace(WebPath(c))
  {}

  /** The notebook's prefix, once its token is in place. */
  lemma ServedSettles(c: Container, vs: seq<EnvVar>) returns (served: seq<EnvVar>)
    requires UniqueNames(vs) && NoSpace(c.namespace) && NoSpace(c.name)
    ensures served == WithBaseUrl(Without(vs, {TOKEN}) + [TokenVar(c)], WebPath(c))
    ensures Settles(vs, served, {TOKEN, NOTEBOOK_ARGS}) && Find(served, TOKEN) == Some(TokenVar(c))
    ensures exists value :: DeclaredFlags(vs) == Fields(value) && Find(served, NOTEBOOK_ARGS).Some?
              && Find(served, NOTEBOOK_ARGS).value.value == BaseUrlArgs(value, WebPath(c))
  {
    hide Without, Find, Fields, BaseUrlArgs, Merge, TrimSpace, Join;
    var path := WebPath(c);
    var tokened := Without(vs, {TOKEN}) + [TokenVar(c)];
    var revise := value => BaseUrlArgs(value, path);
    served := WithBaseUrl(tokened, path);
    assert [TokenVar(c)][0] == TokenVar(c);
    ReplaceSettles(vs, [TokenVar(c)], {TOKEN});
    assert served == Merge(tokened, revise, BASE_URL_FLAG + path);
    MergeSettles(tokened, revise, BASE_URL_FLAG + path);
    MergeFinds(tokened, revise, BASE_URL_FLAG + path);
    SettlesThen(vs, tokened, served, {TOKEN}, {NOTEBOOK_ARGS});
    assert {TOKEN} + {NOTEBOOK_ARGS} == {TOKEN, NOTEBOOK_ARGS};
    SettlesOthers(vs, tokened, {TOKEN}, NOTEBOOK_ARGS);
    SettlesOthers(tokened, served, {NOTEBOOK_ARGS}, TOKEN);
    if Find(vs, NOTEBOOK_ARGS).None? {
      NoArgsDeclared(path);
      assert Find(served, NOTEBOOK_ARGS).value.value == BaseUrlArgs("", path);
    } else {
      assert Find(served, NOTEBOOK_ARGS).value.value == BaseUrlArgs(Find(vs, NOTEBOOK_ARGS).value.value, path);
    }
  }

  lemma NoArgsDeclared(path: string)
    requires NoSpace(path)
    ensures BaseUrlArgs("", path) == BASE_URL_FLAG + path && Fields("") == []
  {
    BaseUrlFlags("", path);
  }

  lemma NotebookSettles(c: Container, vs: seq<EnvVar>)
    requires UniqueNames(vs) && NoSpace(c.namespace) && NoSpace(c.name)
    ensures Settles(vs, Notebook(c, vs), NotebookOwned(c)) && NotebookStated(c, vs, Notebook(c, vs))
  {
    hide Without, Find, Fields, BaseUrlArgs, Merge, Settles, WithBaseUrl, Flags, AllowRootArgs, NoSpace, WebPath;
    WebPathHasNoSpace(c);
    var served := ServedSettles(c, vs);
    var path := WebPath(c);
    var value :| DeclaredFlags(vs) == Fields(value) && Find(served, NOTEBOOK_ARGS).Some?
      && Find(served, NOTEBOOK_ARGS).value.value == BaseUrlArgs(value, path);
    if c.root {
      RootSettles(vs, served, TokenVar(c));
      AllowRootFlags(value, path);
    } else {
      assert NotebookOwned(c) == {TOKEN, NOTEBOOK_ARGS};
      BaseUrlFlags(value, path);
    }
  }

  lemma RootSettles(vs: seq<EnvVar>, served: seq<EnvVar>, token: EnvVar)
    requires Settles(vs, served, {TOKEN, NOTEBOOK_ARGS}) && Find(served, TOKEN) == Some(token)
               && Find(served, NOTEBOOK_ARGS).Some?
    ensures var out := WithRootLauncher(served);
            && Settles(vs, out, {TOKEN, NOTEBOOK_ARGS} + {NB_USER, NB_UID, NB_GID})
            && Find(out, TOKEN) == Some(token)
            && Find(out, NOTEBOOK_ARGS) == Some(Find(served, NOTEBOOK_ARGS).value.(
                 value := AllowRootArgs(Find(served, NOTEBOOK_ARGS).value.value)))
            && forall i :: 0 <= i < 3 ==> Find(out, RootAccount()[i].name) == Some(RootAccount()[i])
  {
    hide Without, Find, Merge, AllowRootArgs;
    var account := {NB_USER, NB_UID, NB_GID};
    var all := Without(served, account) + RootAccount();
    var out := WithRootLauncher(served);
    ReplaceSettles(served, RootAccount(), account);
    MergeSettles(all, AllowRootArgs, ALLOW_ROOT);
    MergeFinds(all, AllowRootArgs, ALLOW_ROOT);
    SettlesOthers(served, all, account, TOKEN);
    SettlesOthers(served, all, account, NOTEBOOK_ARGS);
    SettlesOthers(all, out, {NOTEBOOK_ARGS}, TOKEN);
    forall i | 0 <= i < 3 ensures Find(out, RootAccount()[i].name) == Some(RootAccount()[i]) {
      SettlesOthers(all, out, {NOTEBOOK_ARGS}, RootAccount()[i].name);
    }
    SettlesThen(served, all, out, account, {NOTEBOOK_ARGS});
    SettlesThen(vs, served, out, {TOKEN, NOTEBOOK_ARGS}, account + {NOTEBOOK_ARGS});
    assert {TOKEN, NOTEBOOK_ARGS} + (account + {NOTEBOOK_ARGS}) == {TOKEN, NOTEBOOK_ARGS} + account;
  }

  /** The rendered list has each name once.  Every entry under a name the controller does not own
      survives unchanged, in order; every name it owns carries its value, whatever was declared:
      the token's Secret, the flags with the published prefix, root's account, the type, the home. */
  lemma RenderedSettles(c: Container, declared: seq<EnvVar>)
    requires UniqueNames(declared) && NoSpace(c.namespace) && NoSpace(c.name)
    ensures Settles(declared, Rendered(c, declared), Owned(c))
    ensures c.envType == Jupyter ==> NotebookStated(c, declared, Rendered(c, declared))
    ensures c.envType != VSCode ==> Find(Rendered(c, declared), TYPE) == Some(EnvVar(TYPE, TypeName(c.envType), None))
    ensures c.home.Some? ==> Find(Rendered(c, declared), HOME) == Some(EnvVar(HOME, Escape(c.home.value), None))
  {
    hide Without, Find, Notebook, NotebookStated, Settles, UniqueNames, Fields, Escape, NoSpace, NotebookOwned;
    hide WithHome;
    var a := if c.envType == Jupyter then Notebook(c, declared) else declared;
    var o: set<string> := if c.envType == Jupyter then NotebookOwned(c) else {};
    if c.envType == Jupyter { NotebookSettles(c, declared); } else { UnchangedSettles(declared); }
    SettledUnique(declared, a, o);
    var b := Typed(c, a);
    var p: set<string> := if c.envType != VSCode then {TYPE} else {};
    if c.envType != VSCode {
      OneSettles(a, EnvVar(TYPE, TypeName(c.envType), None));
      if c.envType == Jupyter { StatedStays(c, declared, a, b, {TYPE}); }
    } else {
      UnchangedSettles(a);
    }
    SettledUnique(a, b, p);
    SettlesThen(declared, a, b, o, p);
    if c.home.Some? {
      var d := WithHome(b, c.home.value);
      HomeSettles(b, c.home.value);
      if c.envType == Jupyter { StatedStays(c, declared, b, d, {HOME}); }
      if c.envType != VSCode { SettlesOthers(b, d, {HOME}, TYPE); }
      SettlesThen(declared, b, d, o + p, {HOME});
    } else {
      assert o + p + {} == o + p;
    }
  }

  lemma SettledUnique(vs: seq<EnvVar>, out: seq<EnvVar>, owned: set<string>)
    requires Settles(vs, out, owned)
    ensures UniqueNames(out)
  {}

  lemma UnchangedSettles(vs: seq<EnvVar>)
    requires UniqueNames(vs)
    ensures Settles(vs, vs, {})
  {}

  lemma OneSettles(vs: seq<EnvVar>, v: EnvVar)
    requires UniqueNames(vs)
    ensures Settles(vs, Without(vs, {v.name}) + [v], {v.name}) && Find(Without(vs, {v.name}) + [v], v.name) == Some(v)
  {
    hide Settles;
    assert [v][0] == v;
    ReplaceSettles(vs, [v], {v.name});
  }

  /** A later stage that owns other names leaves the notebook's as they are. */
  lemma StatedStays(c: Container, declared: seq<EnvVar>, vs: seq<EnvVar>, out: seq<EnvVar>, owned: set<string>)
    requires NotebookStated(c, declared, vs) && Settles(vs, out, owned)
               && owned !! {TOKEN, NOTEBOOK_ARGS, NB_USER, NB_UID, NB_GID}
    ensures NotebookStated(c, declared, out)
  {
    hide Find, Settles, Flags, Fields;
    SettlesOthers(vs, out, owned, TOKEN);
    SettlesOthers(vs, out, owned, NOTEBOOK_ARGS);
    SettlesOthers(vs, out, owned, NB_USER);
    SettlesOthers(vs, out, owned, NB_UID);
    SettlesOthers(vs, out, owned, NB_GID);
  }
}
