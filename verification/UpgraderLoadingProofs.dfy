/** What loading hands to the upgrade of a checkpoint: the assumptions of the results about runs. */
module UpgraderLoadingProofs {
  import opened Text
  import opened UpgraderLoading
  import CU = CheckpointUpgrade
  import CP = CheckpointUpgradeProofs

  /** The loaded tables, as an upgrade of a checkpoint reads them. */
  function RegistryOf(files: seq<ScriptFile>, depends: map<Tag, seq<Tag>>): CU.Registry {
    CU.Registry(TagsOf(files, true), TagsOf(files, false),
                map t | t in depends :: CU.Script(t in TagsOf(files, true), depends[t]),
                LegacyOf(files))
  }

  ghost predicate LoadedAs(files: seq<ScriptFile>, depends: map<Tag, seq<Tag>>) {
    var chained := Chain(LegacyOf(files), LiveOf(files), 3, Declared(files));
    && chained.Some? && Resolved(chained.value) && Resolved(DeclaredForward(files))
    && Reversed(chained.value, DeclaredForward(files), depends.Keys, depends)
  }

  lemma {:induction false} DeclaredTags(files: seq<ScriptFile>, t: Tag)
    ensures t in Declared(files) <==> exists f :: f in files && f.tag == t
  {
    if files != [] {
      DeclaredTags(Front(files), t);
      assert files == Front(files) + [Last(files)];
      assert Last(files) in files;
    }
  }

  lemma {:induction false} LegacyDeclares(files: seq<ScriptFile>, v: int)
    requires v in LegacyOf(files)
    ensures exists f :: f in files && f.legacy == Some(v) && f.tag == LegacyOf(files)[v]
  {
    if Last(files).legacy == Some(v) {
      assert Last(files) in files;
    } else {
      LegacyDeclares(Front(files), v);
      var f :| f in Front(files) && f.legacy == Some(v) && f.tag == LegacyOf(Front(files))[v];
      assert f in files;
    }
  }

  /** Two versions of the old scheme never share a script. */
  lemma LegacyTagsDiffer(files: seq<ScriptFile>, u: int, v: int)
    requires TagsOnce(files) && u in LegacyOf(files) && v in LegacyOf(files) && u != v
    ensures LegacyOf(files)[u] != LegacyOf(files)[v]
  {
    LegacyDeclares(files, u);
    LegacyDeclares(files, v);
    var f :| f in files && f.legacy == Some(u) && f.tag == LegacyOf(files)[u];
    var g :| g in files && g.legacy == Some(v) && g.tag == LegacyOf(files)[v];
    var i :| 0 <= i < |files| && files[i] == f;
    var j :| 0 <= j < |files| && files[j] == g;
  }

  /** With every tag used once all legacy versions are found under their tags. */
  lemma {:induction false} AllLive(files: seq<ScriptFile>)
    requires TagsOnce(files)
    ensures LiveOf(files) == LegacyOf(files).Keys
  {
    if files != [] {
      AllLive(Front(files));
      forall v | v in LegacyOf(Front(files)) ensures LegacyOf(Front(files))[v] != Last(files).tag {
        LegacyDeclares(Front(files), v);
      }
    }
  }

  /** Chaining gives version v the one dependency on version v - 1 and leaves the others alone. */
  lemma {:induction false} ChainLinks(legacy: map<int, Tag>, live: set<int>, i: int, deps: map<Tag, seq<Tag>>, v: int)
    requires Chain(legacy, live, i, deps).Some? && i <= v && legacy.Keys <= live
    requires forall w :: i <= w <= v ==> w in legacy
    requires forall u, w :: u in legacy && w in legacy && u != w ==> legacy[u] != legacy[w]
    ensures v - 1 in legacy
    ensures legacy[v] in Chain(legacy, live, i, deps).value
            && Chain(legacy, live, i, deps).value[legacy[v]] == [legacy[v - 1]]
    decreases v - i
  {
    var deps' := deps[legacy[i] := [legacy[i - 1]]];
    if i < v {
      ChainLinks(legacy, live, i + 1, deps', v);
    } else {
      ChainLeaves(legacy, live, i + 1, deps', legacy[i]);
    }
  }

  lemma {:induction false} ChainLeaves(legacy: map<int, Tag>, live: set<int>, i: int, deps: map<Tag, seq<Tag>>, t: Tag)
    requires Chain(legacy, live, i, deps).Some?
    requires forall w :: w in legacy && w >= i ==> legacy[w] != t
    ensures t in Chain(legacy, live, i, deps).value <==> t in deps
    ensures t in deps ==> Chain(legacy, live, i, deps).value[t] == deps[t]
    decreases set v | v in legacy && v >= i
  {
    if i in legacy {
      assert (set v | v in legacy && v >= i) == (set v | v in legacy && v >= i + 1) + {i};
      ChainLeaves(legacy, live, i + 1, if i in live then deps[legacy[i] := [legacy[i - 1]]] else deps, t);
    }
  }

  lemma {:induction false} ChainKeys(legacy: map<int, Tag>, live: set<int>, i: int, deps: map<Tag, seq<Tag>>)
    requires Chain(legacy, live, i, deps).Some? && forall v :: v in legacy ==> legacy[v] in deps
    ensures Chain(legacy, live, i, deps).value.Keys == deps.Keys
    decreases set v | v in legacy && v >= i
  {
    if i in legacy {
      assert (set v | v in legacy && v >= i) == (set v | v in legacy && v >= i + 1) + {i};
      ChainKeys(legacy, live, i + 1, if i in live then deps[legacy[i] := [legacy[i - 1]]] else deps);
    }
  }

  /** The tables hold what each script declares, when every tag is used once. */
  lemma {:induction false} DeclaredIs(files: seq<ScriptFile>, f: ScriptFile)
    requires TagsOnce(files) && f in files
    ensures f.tag in Declared(files) && Declared(files)[f.tag] == f.depends
    ensures f.tag in DeclaredForward(files) && DeclaredForward(files)[f.tag] == f.fwdDepends
  {
    var i :| 0 <= i < |files| && files[i] == f;
    if i < |files| - 1 {
      assert Front(files)[i] == f;
      DeclaredIs(Front(files), f);
    }
  }

  lemma {:induction false} LegacyIs(files: seq<ScriptFile>, f: ScriptFile, v: int)
    requires f in files && f.legacy == Some(v) && forall g :: g in files && g.legacy == Some(v) ==> g == f
    ensures v in LegacyOf(files) && LegacyOf(files)[v] == f.tag
  {
    var i :| 0 <= i < |files| && files[i] == f;
    assert Last(files) in files;
    if Last(files) != f {
      assert Front(files)[i] == f;
      LegacyIs(Front(files), f, v);
    }
  }

  lemma TagsAre(files: seq<ScriptFile>, f: ScriptFile)
    requires TagsOnce(files) && f in files
    ensures f.tag in TagsOf(files, true) <==> f.upgrades
    ensures f.tag in TagsOf(files, false) <==> !f.upgrades
  {
    forall g | g in files && g.tag == f.tag ensures g == f {
      var i :| 0 <= i < |files| && files[i] == f;
      var j :| 0 <= j < |files| && files[j] == g;
    }
  }

  /** The chain ends before the first version that is missing. */
  lemma {:induction false} ChainLeavesRest(legacy: map<int, Tag>, live: set<int>, i: int,
                                           deps: map<Tag, seq<Tag>>, t: Tag)
    requires Chain(legacy, live, i, deps).Some? && t in deps
    requires forall w :: w in legacy && w >= i && legacy[w] == t ==> exists x :: i <= x < w && x !in legacy
    ensures t in Chain(legacy, live, i, deps).value && Chain(legacy, live, i, deps).value[t] == deps[t]
    decreases set v | v in legacy && v >= i
  {
    if i in legacy {
      assert (set v | v in legacy && v >= i) == (set v | v in legacy && v >= i + 1) + {i};
      assert legacy[i] != t;
      ChainLeavesRest(legacy, live, i + 1, if i in live then deps[legacy[i] := [legacy[i - 1]]] else deps, t);
    }
  }

  /** Version v of the old scheme is reached by the chain that starts with version 3. */
  ghost predicate InChain(files: seq<ScriptFile>, f: ScriptFile) {
    exists v :: v >= 3 && v in LegacyOf(files) && LegacyOf(files)[v] == f.tag
      && forall w :: 3 <= w <= v ==> w in LegacyOf(files)
  }

  /** The main result on loading: a script depends on what it declares, and on every script that
      declares it a forward dependency. */
  lemma LoadedDepends(files: seq<ScriptFile>, depends: map<Tag, seq<Tag>>, f: ScriptFile, d: Tag)
    requires TagsOnce(files) && LoadedAs(files, depends) && f in files && !InChain(files, f)
    ensures f.tag in depends
    ensures d in depends[f.tag] <==> d in f.depends || exists g :: g in files && g.tag == d && f.tag in g.fwdDepends
  {
    DependsMeans(files, depends, f, d);
    LeftAlone(files, f);
  }

  /** But a version that the chain reaches depends on the version before it instead of what it declares. */
  lemma ChainedDepends(files: seq<ScriptFile>, depends: map<Tag, seq<Tag>>, f: ScriptFile, v: int, d: Tag)
    requires TagsOnce(files) && LoadedAs(files, depends) && f in files && InChain(files, f)
    requires v >= 3 && v in LegacyOf(files) && LegacyOf(files)[v] == f.tag
    ensures v - 1 in LegacyOf(files) && f.tag in depends
    ensures d in depends[f.tag] <==>
              d == LegacyOf(files)[v - 1] || exists g :: g in files && g.tag == d && f.tag in g.fwdDepends
  {
    DependsMeans(files, depends, f, d);
    Linked(files, f, v);
  }

  lemma DependsMeans(files: seq<ScriptFile>, depends: map<Tag, seq<Tag>>, f: ScriptFile, d: Tag)
    requires TagsOnce(files) && LoadedAs(files, depends) && f in files
    ensures var chained := Chain(LegacyOf(files), LiveOf(files), 3, Declared(files));
            && chained.Some? && f.tag in chained.value && f.tag in depends
            && (d in depends[f.tag] <==>
                  d in chained.value[f.tag] || exists g :: g in files && g.tag == d && f.tag in g.fwdDepends)
  {
    SameKeys(files);
    DeclaredIs(files, f);
    ChainKeys(LegacyOf(files), LiveOf(files), 3, Declared(files));
    DeclaredTags(files, d);
    forall g | g in files ensures g.tag in DeclaredForward(files) && DeclaredForward(files)[g.tag] == g.fwdDepends {
      DeclaredIs(files, g);
    }
  }

  lemma LeftAlone(files: seq<ScriptFile>, f: ScriptFile)
    requires TagsOnce(files) && f in files && !InChain(files, f)
    requires Chain(LegacyOf(files), LiveOf(files), 3, Declared(files)).Some?
    ensures var chained := Chain(LegacyOf(files), LiveOf(files), 3, Declared(files)).value;
            f.tag in chained && chained[f.tag] == f.depends
  {
    DeclaredIs(files, f);
    ChainLeavesRest(LegacyOf(files), LiveOf(files), 3, Declared(files), f.tag);
  }

  lemma Linked(files: seq<ScriptFile>, f: ScriptFile, v: int)
    requires TagsOnce(files) && f in files && InChain(files, f)
    requires v >= 3 && v in LegacyOf(files) && LegacyOf(files)[v] == f.tag
    requires Chain(LegacyOf(files), LiveOf(files), 3, Declared(files)).Some?
    ensures v - 1 in LegacyOf(files)
    ensures var chained := Chain(LegacyOf(files), LiveOf(files), 3, Declared(files)).value;
            f.tag in chained && chained[f.tag] == [LegacyOf(files)[v - 1]]
  {
    var legacy := LegacyOf(files);
    var u :| u >= 3 && u in legacy && legacy[u] == f.tag && forall w :: 3 <= w <= u ==> w in legacy;
    forall x, w | x in legacy && w in legacy && x != w ensures legacy[x] != legacy[w] {
      LegacyTagsDiffer(files, x, w);
    }
    AllLive(files);
    ChainLinks(legacy, LiveOf(files), 3, Declared(files), v);
  }

  /** After loading every dependency names a script, also those that were appended. */
  lemma LoadedDependenciesResolve(files: seq<ScriptFile>, depends: map<Tag, seq<Tag>>)
    requires LoadedAs(files, depends)
    ensures Resolved(depends)
  {
  }

  /** The loaded tables satisfy what the results about runs assume. */
  lemma LoadedIsValid(files: seq<ScriptFile>, depends: map<Tag, seq<Tag>>)
    requires TagsOnce(files) && LoadedAs(files, depends)
    ensures CU.Valid(RegistryOf(files, depends))
  {
    SameKeys(files);
    ChainKeys(LegacyOf(files), LiveOf(files), 3, Declared(files));
    forall f | f in files ensures f.tag in depends {
      DeclaredTags(files, f.tag);
    }
    forall f, g | f in files && g in files && f.tag == g.tag ensures f == g {
      var i :| 0 <= i < |files| && files[i] == f;
      var j :| 0 <= j < |files| && files[j] == g;
    }
  }

  /** If the versions from 2 to last all have upgraders, loading chains them, so that runs from a
      legacy checkpoint go through them in order. */
  lemma LoadedIsChained(files: seq<ScriptFile>, depends: map<Tag, seq<Tag>>, last: int)
    requires TagsOnce(files) && LoadedAs(files, depends)
    requires forall v :: 2 <= v <= last ==> v in LegacyOf(files) && LegacyOf(files)[v] in TagsOf(files, true)
    ensures CP.Chained(RegistryOf(files, depends), last)
  {
    var legacy := LegacyOf(files);
    var chained := Chain(legacy, LiveOf(files), 3, Declared(files)).value;
    forall u, w | u in legacy && w in legacy && u != w ensures legacy[u] != legacy[w] {
      LegacyTagsDiffer(files, u, w);
    }
    AllLive(files);
    forall v | 3 <= v <= last ensures CP.LinkedAt(RegistryOf(files, depends), v) {
      ChainLinks(legacy, LiveOf(files), 3, Declared(files), v);
      assert ExtendedBy(chained[legacy[v]], depends[legacy[v]],
                        Declaring(DeclaredForward(files), depends.Keys, legacy[v]));
      assert legacy[v - 1] in chained[legacy[v]];
    }
  }
}
