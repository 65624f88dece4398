/** What the container reads in its environment, entry by entry
    (operator/internal/controller/devenvironment_controller.go:1767-1931, 2208-2260). */
module RenderedEnv {
  import opened Wrappers
  import opened Strings
  import opened DevSpec
  import opened EnvVars

  // -------------------------------------------------------------- the list, by position

  lemma {:induction false} FindFirst(vs: seq<EnvVar>, name: string)
    ensures Find(vs, name).Some? ==> Find(vs, name).value in vs && Find(vs, name).value.name == name
    ensures Find(vs, name).None? ==> forall i :: 0 <= i < |vs| ==> vs[i].name != name
  {
    if vs != [] && vs[0].name != name {
      FindFirst(vs[1..], name);
      forall i | 0 <= i < |vs| && Find(vs, name).None? ensures vs[i].name != name {
        if i > 0 { assert vs[1..][i - 1] == vs[i]; }
      }
    }
  }

  /** Where an entry that stays goes: behind those that stay before it. */
  lemma {:induction false} KeptAt(vs: seq<EnvVar>, names: set<string>, i: nat)
    requires i < |vs| && vs[i].name !in names
    ensures var k := |Without(vs[..i], names)|; k < |Without(vs, names)| && Without(vs, names)[k] == vs[i]
  {
    var init := vs[..|vs| - 1];
    if i < |init| {
      KeptAt(init, names, i);
      assert init[..i] == vs[..i];
    }
  }

  lemma {:induction false} KeptBefore(vs: seq<EnvVar>, names: set<string>, i: nat, j: nat)
    requires i < j <= |vs| && vs[i].name !in names
    ensures |Without(vs[..i], names)| < |Without(vs[..j], names)|
    decreases j
  {
    assert vs[..j][..j - 1] == vs[..j - 1];
    if j > i + 1 { KeptBefore(vs, names, i, j - 1); }
  }

  lemma {:induction false} KeptFrom(vs: seq<EnvVar>, names: set<string>, k: nat) returns (i: nat)
    requires k < |Without(vs, names)|
    ensures i < |vs| && vs[i] == Without(vs, names)[k] && vs[i].name !in names && k == |Without(vs[..i], names)|
  {
    var last := |vs| - 1;
    if k < |Without(vs[..last], names)| {
      i := KeptFrom(vs[..last], names, k);
      assert vs[..last][..i] == vs[..i];
    } else {
      i := last;
    }
  }

  /** The owned names, by the kind of environment. */
  ghost predicate OwnedName(c: Container, n: string) {
    || (c.envType.Jupyter? && n in {"JUPYTER_TOKEN", "NOTEBOOK_ARGS"})
    || (c.envType.Jupyter? && c.root && n in {"NB_USER", "NB_UID", "NB_GID"})
    || (!c.envType.VSCode? && n == "CUBSTACK_TYPE")
    || (c.home.Some? && n == "HOME")
  }

  lemma OwnedNames(c: Container, n: string)
    ensures n in Owned(c) <==> OwnedName(c, n)
  {}

  /** What the user declares under a name of its own stays exactly what it is, and nothing else is there. */
  lemma OthersSurvive(c: Container, declared: seq<EnvVar>)
    requires UniqueNames(declared) && NoSpace(c.namespace) && NoSpace(c.name)
    ensures var vs := Rendered(c, declared);
            && (forall i, j :: 0 <= i < j < |vs| ==> vs[i].name != vs[j].name)
            && (forall i :: 0 <= i < |declared| && !OwnedName(c, declared[i].name) ==> declared[i] in vs)
            && (forall i :: 0 <= i < |vs| && !OwnedName(c, vs[i].name) ==> vs[i] in declared)
  {
    hide Rendered, Without, Owned, OwnedName;
    var vs := Rendered(c, declared);
    RenderedSettles(c, declared);
    forall i | 0 <= i < |declared| && !OwnedName(c, declared[i].name) ensures declared[i] in vs {
      OwnedNames(c, declared[i].name);
      KeptAt(declared, Owned(c), i);
      var k := KeptFrom(vs, Owned(c), |Without(declared[..i], Owned(c))|);
    }
    forall i | 0 <= i < |vs| && !OwnedName(c, vs[i].name) ensures vs[i] in declared {
      OwnedNames(c, vs[i].name);
      KeptAt(vs, Owned(c), i);
      var k := KeptFrom(declared, Owned(c), |Without(vs[..i], Owned(c))|);
    }
  }

  /** And in the order it was declared in. */
  lemma OrderKept(c: Container, declared: seq<EnvVar>, i: nat, j: nat) returns (a: nat, b: nat)
    requires UniqueNames(declared) && NoSpace(c.namespace) && NoSpace(c.name)
    requires i < j < |declared| && !OwnedName(c, declared[i].name) && !OwnedName(c, declared[j].name)
    ensures var vs := Rendered(c, declared); a < b < |vs| && vs[a] == declared[i] && vs[b] == declared[j]
  {
    hide Rendered, Without, Owned, OwnedName;
    var vs, owned := Rendered(c, declared), Owned(c);
    RenderedSettles(c, declared);
    OwnedNames(c, declared[i].name);
    OwnedNames(c, declared[j].name);
    KeptAt(declared, owned, i);
    KeptAt(declared, owned, j);
    KeptBefore(declared, owned, i, j);
    a := KeptFrom(vs, owned, |Without(declared[..i], owned)|);
    b := KeptFrom(vs, owned, |Without(declared[..j], owned)|);
    if b < a { KeptBefore(vs, owned, b, a); }
  }

  /** The values the controller states. */
  lemma StatedValues(c: Container, declared: seq<EnvVar>, lookup: string -> string)
    requires UniqueNames(declared) && NoSpace(c.namespace) && NoSpace(c.name)
    ensures var vs := Rendered(c, declared);
            && (c.envType.Jupyter? ==>
                  EnvVar("JUPYTER_TOKEN", "", Some(SecretKey(c.name + "-jupyter-token", "token"))) in vs)
            && (c.envType.Jupyter? && c.root ==>
                  && EnvVar("NB_USER", "root", None) in vs && EnvVar("NB_UID", "0", None) in vs
                  && EnvVar("NB_GID", "0", None) in vs)
            && (c.envType.Jupyter? ==> EnvVar("CUBSTACK_TYPE", "jupyter", None) in vs)
            && (c.envType.SSH? ==> EnvVar("CUBSTACK_TYPE", "ssh", None) in vs)
            && (c.home.Some? ==>
                  exists v :: v in vs && v.name == "HOME" && v.source.None? && Expand(v.value, lookup) == c.home.value)
  {
    hide Rendered, Settles, Fields, Flags, Escape, Expand, Find, WebPath;
    var vs := Rendered(c, declared);
    RenderedSettles(c, declared);
    FindFirst(vs, TYPE);
    if c.envType.Jupyter? {
      FindFirst(vs, TOKEN);
      if c.root {
        var account := RootAccount();
        assert Find(vs, account[0].name) == Some(account[0]) && Find(vs, account[1].name) == Some(account[1])
            && Find(vs, account[2].name) == Some(account[2]);
        FindFirst(vs, NB_USER);
        FindFirst(vs, NB_UID);
        FindFirst(vs, NB_GID);
      }
    }
    if c.home.Some? {
      FindFirst(vs, HOME);
      HomeExpandsBack(c.home.value, lookup);
    }
  }

  // ---------------------------------------------------------------------------- the flags

  ghost predicate SetsPrefix(f: string) { "--ServerApp.base_url=" <= f }

  /** The one prefix flag is the published path's; a root server is allowed to run; every other flag is there as
      often as it was declared. */
  ghost predicate FlagsFrom(declared: seq<string>, flags: seq<string>, path: string, root: bool) {
    && Times("--ServerApp.base_url=" + path, flags) == 1
    && (forall f :: f in flags && SetsPrefix(f) ==> f == "--ServerApp.base_url=" + path)
    && Times("--allow-root", flags) ==
       (if root && "--allow-root" !in declared then 1 else Times("--allow-root", declared))
    && (forall f :: !SetsPrefix(f) && f != "--allow-root" ==> Times(f, flags) == Times(f, declared))
  }

  lemma {:induction false} DroppedCounts(args: seq<string>, f: string)
    ensures multiset(WithoutBaseUrl(args))[f] == if SetsPrefix(f) then 0 else multiset(args)[f]
  {
    if args != [] {
      var init, last := args[..|args| - 1], args[|args| - 1];
      assert args == init + [last];
      DroppedCounts(init, f);
    }
  }

  ghost function Times(f: string, fs: seq<string>): (n: nat)
    ensures n > 0 <==> f in fs
  {
    multiset(fs)[f]
  }

  lemma PrefixIsNotAllow(path: string)
    ensures SetsPrefix("--ServerApp.base_url=" + path) && !SetsPrefix("--allow-root")
  {
    var allow := "--allow-root";
    assert allow[2] != "--ServerApp.base_url="[2];
  }

  lemma FlagsCount(declared: seq<string>, path: string, root: bool, f: string)
    ensures Times(f, Flags(declared, path, root)) ==
            (if SetsPrefix(f) then 0 else Times(f, declared))
            + (if f == "--ServerApp.base_url=" + path then 1 else 0)
            + if root && "--allow-root" !in declared && f == "--allow-root" then 1 else 0
  {
    hide SetsPrefix, WithoutBaseUrl;
    DroppedCounts(declared, f);
    FlagCount(WithoutBaseUrl(declared), "--ServerApp.base_url=" + path,
              if root && "--allow-root" !in declared then ["--allow-root"] else [], f);
  }

  lemma FlagsAre(declared: seq<string>, path: string, root: bool)
    ensures FlagsFrom(declared, Flags(declared, path, root), path, root)
  {
    var flags := Flags(declared, path, root);
    PrefixIsNotAllow(path);
    forall f ensures Times(f, flags) ==
        (if SetsPrefix(f) then 0 else Times(f, declared)) + (if f == "--ServerApp.base_url=" + path then 1 else 0)
        + if root && "--allow-root" !in declared && f == "--allow-root" then 1 else 0
    {
      FlagsCount(declared, path, root, f);
    }
    hide SetsPrefix, Flags, Times;
  }

  lemma FlagCount(kept: seq<string>, prefix: string, more: seq<string>, f: string)
    requires |more| <= 1
    ensures multiset(kept + [prefix] + more)[f] ==
            multiset(kept)[f] + (if f == prefix then 1 else 0) + if |more| == 1 && f == more[0] then 1 else 0
  {
    if |more| == 1 { assert more == [more[0]]; }
  }

  lemma {:induction false} FlagKept(args: seq<string>, i: nat)
    requires i < |args| && !SetsPrefix(args[i])
    ensures var k := |WithoutBaseUrl(args[..i])|; k < |WithoutBaseUrl(args)| && WithoutBaseUrl(args)[k] == args[i]
  {
    var init := args[..|args| - 1];
    if i < |init| {
      FlagKept(init, i);
      assert init[..i] == args[..i];
    }
  }

  lemma {:induction false} FlagsBefore(args: seq<string>, i: nat, j: nat)
    requires i < j <= |args| && !SetsPrefix(args[i])
    ensures |WithoutBaseUrl(args[..i])| < |WithoutBaseUrl(args[..j])|
    decreases j
  {
    assert args[..j][..j - 1] == args[..j - 1];
    if j > i + 1 { FlagsBefore(args, i, j - 1); }
  }

  /** The declared flags keep their order, before the ones the controller adds. */
  lemma FlagOrder(declared: seq<string>, path: string, root: bool, i: nat, j: nat) returns (a: nat, b: nat)
    requires i < j < |declared| && !SetsPrefix(declared[i]) && !SetsPrefix(declared[j])
    ensures var flags := Flags(declared, path, root);
            a < b < |flags| && flags[a] == declared[i] && flags[b] == declared[j]
  {
    FlagKept(declared, i);
    FlagKept(declared, j);
    FlagsBefore(declared, i, j);
    a, b := |WithoutBaseUrl(declared[..i])|, |WithoutBaseUrl(declared[..j])|;
  }

  /** The notebook server reads the path it is published at, and otherwise the flags the spec declares. */
  lemma NotebookFlags(c: Container, declared: seq<EnvVar>)
    requires UniqueNames(declared) && NoSpace(c.namespace) && NoSpace(c.name) && c.envType.Jupyter?
    ensures var vs, path := Rendered(c, declared), "/dev/" + c.namespace + "/" + c.name + "/";
            exists v :: v in vs && v.name == "NOTEBOOK_ARGS"
              && (forall i :: 0 <= i < |declared| && declared[i].name == "NOTEBOOK_ARGS" ==>
                    FlagsFrom(Fields(declared[i].value), Fields(v.value), path, c.root))
              && ((forall i :: 0 <= i < |declared| ==> declared[i].name != "NOTEBOOK_ARGS") ==>
                    FlagsFrom([], Fields(v.value), path, c.root))
  {
    hide Rendered, Settles, Fields, Flags, Find, FlagsFrom;
    var vs := Rendered(c, declared);
    RenderedSettles(c, declared);
    FindFirst(vs, NOTEBOOK_ARGS);
    FindFirst(declared, NOTEBOOK_ARGS);
    var v := Find(vs, NOTEBOOK_ARGS).value;
    FlagsAre(DeclaredFlags(declared), WebPath(c), c.root);
    forall i | 0 <= i < |declared| && declared[i].name == "NOTEBOOK_ARGS"
      ensures DeclaredFlags(declared) == Fields(declared[i].value)
    {
      FindAt(declared, i);
    }
  }
}
