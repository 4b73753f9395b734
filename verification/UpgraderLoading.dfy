/** Loading the upgrader scripts (gem5/util/cpt_upgrader.py, class Upgrader): the list of
    dependencies of each script is overwritten for the legacy chain and grows by the reversed
    forward dependencies of the others. A script object is represented by its tag; when two scripts
    use one tag, the first is no longer found under it, and chaining it changes nothing that is read. */
module UpgraderLoading {
  import opened Text
  import CU = CheckpointUpgrade

  type Tag = CU.Tag

  /** What a script file declares. */
  datatype ScriptFile = ScriptFile(tag: Tag, upgrades: bool, depends: seq<Tag>,
    fwdDepends: seq<Tag>, legacy: Option<int>)

  datatype Outcome = Loaded | KeyError | NonexistentTag

  // ---------------------------------------------------------------- what loading computes

  /** No two scripts use one tag. */
  ghost predicate TagsOnce(files: seq<ScriptFile>) {
    forall i, j :: 0 <= i < j < |files| ==> files[i].tag != files[j].tag
  }

  function Last(files: seq<ScriptFile>): ScriptFile
    requires files != []
  {
    files[|files| - 1]
  }

  function Front(files: seq<ScriptFile>): seq<ScriptFile>
    requires files != []
  {
    files[..|files| - 1]
  }

  function Declared(files: seq<ScriptFile>): map<Tag, seq<Tag>> {
    if files == [] then map[] else Declared(Front(files))[Last(files).tag := Last(files).depends]
  }

  function DeclaredForward(files: seq<ScriptFile>): map<Tag, seq<Tag>> {
    if files == [] then map[] else DeclaredForward(Front(files))[Last(files).tag := Last(files).fwdDepends]
  }

  /** The tags of the scripts that upgrade, or of those that downgrade. */
  function TagsOf(files: seq<ScriptFile>, upgrades: bool): set<Tag> {
    set f | f in files && f.upgrades == upgrades :: f.tag
  }

  /** Of several scripts for one legacy version the last one loaded counts. */
  function LegacyOf(files: seq<ScriptFile>): map<int, Tag> {
    if files == [] then map[]
    else
      var rest, f := LegacyOf(Front(files)), Last(files);
      if f.legacy.Some? then rest[f.legacy.value := f.tag] else rest
  }

  /** The legacy versions whose script is the one that its tag stands for. */
  function LiveOf(files: seq<ScriptFile>): set<int> {
    if files == [] then {}
    else
      var f := Last(files);
      (set v | v in LiveOf(Front(files)) && v in LegacyOf(Front(files)) && LegacyOf(Front(files))[v] != f.tag)
        + if f.legacy.Some? then {f.legacy.value} else {}
  }

  /** The dependencies after the legacy versions from i on have been chained. */
  function Chain(legacy: map<int, Tag>, live: set<int>, i: int, deps: map<Tag, seq<Tag>>): Option<map<Tag, seq<Tag>>>
    decreases set v | v in legacy && v >= i
  {
    if i !in legacy then Some(deps)
    else if i - 1 !in legacy then None
    else
      assert (set v | v in legacy && v >= i) == (set v | v in legacy && v >= i + 1) + {i};
      Chain(legacy, live, i + 1, if i in live then deps[legacy[i] := [legacy[i - 1]]] else deps)
  }

  ghost predicate Resolves(tags: set<Tag>, names: seq<Tag>) {
    forall d :: d in names ==> d in tags
  }

  /** Every dependency names a loaded script. */
  ghost predicate Resolved(deps: map<Tag, seq<Tag>>) {
    forall t :: t in deps ==> Resolves(deps.Keys, deps[t])
  }

  /** The scripts among some that declare t as a forward dependency. */
  function Declaring(forward: map<Tag, seq<Tag>>, some: set<Tag>, t: Tag): set<Tag> {
    set x | x in some && x in forward && t in forward[x]
  }

  ghost predicate ExtendedBy(before: seq<Tag>, after: seq<Tag>, extra: set<Tag>) {
    before <= after && forall x :: x in after <==> x in before || x in extra
  }

  /** The lists have grown by the scripts among some that declare them. */
  ghost predicate Reversed(before: map<Tag, seq<Tag>>, forward: map<Tag, seq<Tag>>,
                           some: set<Tag>, after: map<Tag, seq<Tag>>) {
    && after.Keys == before.Keys
    && forall t :: t in before ==> ExtendedBy(before[t], after[t], Declaring(forward, some, t))
  }

  // ---------------------------------------------------------------- the tables

  /** The class variables of Upgrader, and the fields depends and fwd_depends of its objects. */
  class Tables {
    var tagSet: set<Tag>
    var untagSet: set<Tag>
    var depends: map<Tag, seq<Tag>>
    var fwdDepends: map<Tag, seq<Tag>>
    var legacy: map<int, Tag>
    /** The versions whose object is still the one under its tag: what identity of objects decides. */
    var live: set<int>

    constructor ()
      ensures tagSet == untagSet == {} && depends == fwdDepends == map[] && legacy == map[] && live == {}
    {
      tagSet, untagSet, depends, fwdDepends, legacy, live := {}, {}, map[], map[], map[], {};
    }

    method LoadAll(files: seq<ScriptFile>) returns (outcome: Outcome)
      requires tagSet == untagSet == {} && depends == fwdDepends == map[] && legacy == map[] && live == {}
      modifies this
      ensures tagSet == TagsOf(files, true) && untagSet == TagsOf(files, false) && legacy == LegacyOf(files)
      ensures var chained := Chain(LegacyOf(files), LiveOf(files), 3, Declared(files));
        && (outcome == KeyError <==> chained == None)
        && (outcome == Loaded <==> chained.Some? && Resolved(chained.value) && Resolved(DeclaredForward(files)))
        && (outcome == Loaded ==> Reversed(chained.value, DeclaredForward(files), depends.Keys, depends))
    {
      Register(files);
      SameKeys(files);
      var i := 3;
      while i in legacy
        invariant Chain(LegacyOf(files), LiveOf(files), 3, Declared(files)) == Chain(legacy, live, i, depends)
        invariant legacy == LegacyOf(files) && live == LiveOf(files)
          && depends.Keys == fwdDepends.Keys && fwdDepends == DeclaredForward(files)
        invariant tagSet == TagsOf(files, true) && untagSet == TagsOf(files, false)
        decreases set v | v in legacy && v >= i
      {
        if i - 1 !in legacy {
          return KeyError;
        }
        assert (set v | v in legacy && v >= i) == (set v | v in legacy && v >= i + 1) + {i};
        if i in live {
          depends := depends[legacy[i] := [legacy[i - 1]]];
        }
        i := i + 1;
      }
      outcome := Resolve();
    }

    /** The constructor of class Upgrader enters each script in the tables. */
    method Register(files: seq<ScriptFile>)
      requires tagSet == untagSet == {} && depends == fwdDepends == map[] && legacy == map[] && live == {}
      modifies this
      ensures depends == Declared(files) && fwdDepends == DeclaredForward(files)
      ensures legacy == LegacyOf(files) && live == LiveOf(files)
      ensures tagSet == TagsOf(files, true) && untagSet == TagsOf(files, false)
    {
      hide Declared, DeclaredForward, LegacyOf, LiveOf, TagsOf;
      assert files[..0] == [];
      TablesStart();
      for i := 0 to |files|
        invariant depends == Declared(files[..i]) && fwdDepends == DeclaredForward(files[..i])
        invariant legacy == LegacyOf(files[..i]) && live == LiveOf(files[..i])
        invariant tagSet == TagsOf(files[..i], true) && untagSet == TagsOf(files[..i], false)
      {
        var f := files[i];
        TagsNext(files, i);
        TablesNext(files, i);
        depends, fwdDepends := depends[f.tag := f.depends], fwdDepends[f.tag := f.fwdDepends];
        if f.upgrades {
          tagSet := tagSet + {f.tag};
        } else {
          untagSet := untagSet + {f.tag};
        }
        live := set v | v in live && v in legacy && legacy[v] != f.tag;
        if f.legacy.Some? {
          legacy := legacy[f.legacy.value := f.tag];
          live := live + {f.legacy.value};
        }
      }
      assert files[..|files|] == files;
    }

    /** Reverses the forward dependencies and checks that every dependency names a script, in the
        order in which the dictionary happens to list them. */
    method Resolve() returns (outcome: Outcome)
      requires depends.Keys == fwdDepends.Keys
      modifies this`depends
      ensures outcome == Loaded <==> Resolved(old(depends)) && Resolved(fwdDepends)
      ensures outcome == Loaded || outcome == NonexistentTag
      ensures outcome == Loaded ==> Reversed(old(depends), fwdDepends, depends.Keys, depends)
    {
      var todo := depends.Keys;
      ghost var start, done := depends, {};
      while todo != {}
        invariant done !! todo && done + todo == depends.Keys
        invariant Reversed(start, fwdDepends, done, depends)
        invariant Audited(start, fwdDepends, done)
        decreases todo
      {
        var tag :| tag in todo;
        ghost var before := depends;
        var ok := AddForward(tag);
        if !ok {
          return NonexistentTag;
        }
        ReversedNext(start, fwdDepends, done, before, depends, tag);
        ok := Audit(tag);
        assert ExtendedBy(start[tag], depends[tag], Declaring(fwdDepends, done + {tag}, tag));
        AuditNext(start[tag], depends[tag], Declaring(fwdDepends, done + {tag}, tag), start.Keys);
        if !ok {
          return NonexistentTag;
        }
        done, todo := done + {tag}, todo - {tag};
      }
      outcome := Loaded;
    }

    /** Appends one script to the lists of those that it declares to depend on it. */
    method AddForward(tag: Tag) returns (ok: bool)
      requires tag in depends && tag in fwdDepends
      modifies this`depends
      ensures ok <==> Resolves(old(depends).Keys, fwdDepends[tag])
      ensures ok ==> depends.Keys == old(depends).Keys
      ensures ok ==> forall t :: t in depends ==>
        ExtendedBy(old(depends)[t], depends[t], if t in fwdDepends[tag] then {tag} else {})
    {
      var forward := fwdDepends[tag];
      ghost var before := depends;
      for j := 0 to |forward|
        invariant depends.Keys == before.Keys
        invariant forall t :: t in before ==> ExtendedBy(before[t], depends[t], if t in forward[..j] then {tag} else {})
        invariant forall d :: d in forward[..j] ==> d in before
      {
        if forward[j] !in depends {
          return false;
        }
        assert forward[..j + 1] == forward[..j] + [forward[j]];
        depends := depends[forward[j] := depends[forward[j]] + [tag]];
      }
      assert forward[..|forward|] == forward;
      ok := true;
    }

    method Audit(tag: Tag) returns (ok: bool)
      requires tag in depends
      ensures ok <==> Resolves(depends.Keys, depends[tag])
    {
      for j := 0 to |depends[tag]|
        invariant forall d :: d in depends[tag][..j] ==> d in depends
      {
        if depends[tag][j] !in depends {
          return false;
        }
      }
      ok := true;
    }
  }

  /** Both kinds of dependencies of these scripts name loaded scripts. */
  ghost predicate Audited(start: map<Tag, seq<Tag>>, forward: map<Tag, seq<Tag>>, done: set<Tag>) {
    forall t :: t in done && t in start && t in forward ==>
      Resolves(start.Keys, forward[t]) && Resolves(start.Keys, start[t])
  }

  lemma AuditNext(before: seq<Tag>, after: seq<Tag>, extra: set<Tag>, tags: set<Tag>)
    requires ExtendedBy(before, after, extra) && extra <= tags
    ensures Resolves(tags, before) <==> Resolves(tags, after)
  {
  }

  lemma ExtendedTwice(a: seq<Tag>, b: seq<Tag>, c: seq<Tag>, first: set<Tag>, second: set<Tag>)
    requires ExtendedBy(a, b, first) && ExtendedBy(b, c, second)
    ensures ExtendedBy(a, c, first + second)
  {
  }

  lemma ReversedNext(start: map<Tag, seq<Tag>>, forward: map<Tag, seq<Tag>>, done: set<Tag>,
                     before: map<Tag, seq<Tag>>, after: map<Tag, seq<Tag>>, tag: Tag)
    requires Reversed(start, forward, done, before) && after.Keys == before.Keys && tag in forward
    requires forall t :: t in before ==> ExtendedBy(before[t], after[t], if t in forward[tag] then {tag} else {})
    ensures Reversed(start, forward, done + {tag}, after)
  {
    hide ExtendedBy;
    forall t | t in start ensures ExtendedBy(start[t], after[t], Declaring(forward, done + {tag}, t)) {
      var more := if t in forward[tag] then {tag} else {};
      ExtendedTwice(start[t], before[t], after[t], Declaring(forward, done, t), more);
      assert Declaring(forward, done + {tag}, t) == Declaring(forward, done, t) + more;
    }
  }

  lemma TablesStart()
    ensures Declared([]) == DeclaredForward([]) == map[] && LegacyOf([]) == map[] && LiveOf([]) == {}
    ensures TagsOf([], true) == TagsOf([], false) == {}
  {
  }

  lemma TablesNext(files: seq<ScriptFile>, i: nat)
    requires i < |files|
    ensures var before, f, legacy := files[..i], files[i], LegacyOf(files[..i]);
            && Declared(files[..i + 1]) == Declared(before)[f.tag := f.depends]
            && DeclaredForward(files[..i + 1]) == DeclaredForward(before)[f.tag := f.fwdDepends]
            && LegacyOf(files[..i + 1]) == (if f.legacy.Some? then legacy[f.legacy.value := f.tag] else legacy)
            && LiveOf(files[..i + 1]) == (set v | v in LiveOf(before) && v in legacy && legacy[v] != f.tag)
                                         + if f.legacy.Some? then {f.legacy.value} else {}
  {
    assert Front(files[..i + 1]) == files[..i];
  }

  lemma TagsNext(files: seq<ScriptFile>, i: nat)
    requires i < |files|
    ensures forall u ::
      TagsOf(files[..i + 1], u) == TagsOf(files[..i], u) + if files[i].upgrades == u then {files[i].tag} else {}
  {
  }

  lemma {:induction false} SameKeys(files: seq<ScriptFile>)
    ensures Declared(files).Keys == DeclaredForward(files).Keys
    ensures forall v :: v in LegacyOf(files) ==> LegacyOf(files)[v] in Declared(files)
  {
    if files != [] {
      SameKeys(Front(files));
    }
  }
}
