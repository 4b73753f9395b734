/** Upgrading one checkpoint (gem5/util/cpt_upgrader.py, process_file): upgraders and downgraders
    run in rounds, each round running all whose dependencies are present at its start. */
module CheckpointUpgrade {

  type Tag = string

  /** An upgrader or downgrader script. */
  datatype Script = Script(upgrades: bool, depends: seq<Tag>)

  /** The tables of class Upgrader after loading. */
  datatype Registry = Registry(tagSet: set<Tag>, untagSet: set<Tag>, byTag: map<Tag, Script>, legacy: map<int, Tag>)

  /** A tag is used once: for an upgrader or for a downgrader. */
  ghost predicate Valid(reg: Registry) {
    && (forall t :: t in reg.tagSet ==> t in reg.byTag && reg.byTag[t].upgrades)
    && (forall t :: t in reg.untagSet ==> t in reg.byTag && !reg.byTag[t].upgrades)
    && (forall v :: v in reg.legacy ==> reg.legacy[v] in reg.byTag)
  }

  // ---------------------------------------------------------------- one run, by rounds

  function ToApply(reg: Registry, tags: set<Tag>): set<Tag> {
    (reg.tagSet - tags) + (reg.untagSet * tags)
  }

  predicate IsReady(reg: Registry, tags: set<Tag>, t: Tag)
    requires t in reg.byTag
  {
    forall d :: d in reg.byTag[t].depends ==> d in tags
  }

  function Ready(reg: Registry, pending: set<Tag>, tags: set<Tag>): set<Tag>
    requires pending <= reg.byTag.Keys
  {
    set t | t in pending && IsReady(reg, tags, t)
  }

  /** The tags after the scripts of a set have run, in whatever order. */
  function After(reg: Registry, applied: set<Tag>, tags: set<Tag>): set<Tag> {
    tags + (applied * reg.tagSet) - (applied * reg.untagSet)
  }

  /** The rounds of a run, the tags at its end, and what could not be applied. */
  datatype Run = Run(rounds: seq<set<Tag>>, tags: set<Tag>, stuck: set<Tag>)

  ghost function Rounds(reg: Registry, pending: set<Tag>, tags: set<Tag>): Run
    requires pending <= reg.byTag.Keys
    decreases pending
  {
    if pending == {} then Run([], tags, {})
    else
      var ready := Ready(reg, pending, tags);
      if ready == {} then Run([], tags, pending)
      else
        var r := Rounds(reg, pending - ready, After(reg, ready, tags));
        Run([ready] + r.rounds, r.tags, r.stuck)
  }

  /** What a run on a checkpoint with these tags does. */
  ghost function Upgrade(reg: Registry, tags: set<Tag>): Run
    requires Valid(reg)
  {
    Rounds(reg, ToApply(reg, tags), tags)
  }

  function Elements(s: seq<Tag>): set<Tag> { set t | t in s }

  /** The log lists the scripts of each round in some order and without repetition. */
  ghost predicate Lists(log: seq<seq<Tag>>, rounds: seq<set<Tag>>) {
    && |log| == |rounds|
    && forall k :: 0 <= k < |log| ==> Elements(log[k]) == rounds[k] && |log[k]| == |rounds[k]|
  }

  // ---------------------------------------------------------------- the script

  /** What the checkpoint file says about its version. */
  datatype Version = CptVer(ver: int) | VersionTags(tags: set<Tag>) | NoVersion

  datatype Outcome = NothingToDo | Written(tags: set<Tag>) | Unresolved(stuck: set<Tag>) | NoVersionInfo | KeyError

  /** The tags that stand for a version of the old linear scheme. */
  function LegacyTags(reg: Registry, ver: int): set<Tag> {
    set v | v in reg.legacy && 2 <= v <= ver :: reg.legacy[v]
  }

  class Checkpoint {
    /** The scripts that have edited this checkpoint, oldest first, round by round. */
    var log: seq<seq<Tag>>

    constructor ()
      ensures log == []
    {
      log := [];
    }

    method ProcessFile(reg: Registry, version: Version) returns (outcome: Outcome)
      requires Valid(reg)
      modifies this
      ensures version == NoVersion ==> outcome == NoVersionInfo && log == old(log)
      ensures version.CptVer? ==>
        if forall v :: 2 <= v <= version.ver ==> v in reg.legacy
        then outcome == Report(Upgrade(reg, LegacyTags(reg, version.ver)), true)
             && Edited(old(log), Upgrade(reg, LegacyTags(reg, version.ver)).rounds)
        else outcome == KeyError && log == old(log)
      ensures version.VersionTags? ==>
        outcome == Report(Upgrade(reg, version.tags), false) && Edited(old(log), Upgrade(reg, version.tags).rounds)
    {
      var tags: set<Tag> := {};
      var change := false;
      match version {
        case NoVersion =>
          return NoVersionInfo;
        case VersionTags(ts) =>
          tags := ts;
        case CptVer(ver) =>
          var i := 2;
          while i <= ver
            invariant 2 <= i && (i <= ver + 1 || i == 2)
            invariant forall v :: 2 <= v < i ==> v in reg.legacy
            invariant tags == LegacyTags(reg, i - 1)
            invariant log == old(log)
          {
            if i !in reg.legacy {
              return KeyError;
            }
            tags := tags + {reg.legacy[i]};
            i := i + 1;
          }
          assert tags == LegacyTags(reg, ver);
          change := true;
      }
      outcome := Apply(reg, tags, change);
    }

    /** The log has grown by the rounds of a run. */
    ghost predicate Edited(before: seq<seq<Tag>>, rounds: seq<set<Tag>>)
      reads this
    {
      before <= log && Lists(log[|before|..], rounds)
    }

    /** The loop over the rounds. */
    method Apply(reg: Registry, start: set<Tag>, changed: bool) returns (outcome: Outcome)
      requires Valid(reg)
      modifies this
      ensures outcome == Report(Upgrade(reg, start), changed)
      ensures Edited(old(log), Upgrade(reg, start).rounds)
    {
      var tags, change := start, changed;
      var toApply := ToApply(reg, tags);
      ghost var run := Upgrade(reg, start);
      ghost var done: seq<set<Tag>> := [];
      while toApply != {}
        invariant Pending(reg, toApply, tags)
        invariant Follows(run, done, Rounds(reg, toApply, tags))
        invariant Edited(old(log), done)
        invariant change <==> changed || done != []
        decreases toApply
      {
        var ready := Ready(reg, toApply, tags);
        if ready == {} {
          assert run.rounds == done + [] == done;
          return Unresolved(toApply);
        }
        FollowsNext(reg, run, done, toApply, tags, ready);
        PendingNext(reg, toApply, tags, ready);
        var ran;
        tags, ran := RunRound(reg, ready, tags);
        log, done, change := log + [ran], done + [ready], true;
        toApply := toApply - ready;
      }
      assert run.rounds == done + [] == done;
      outcome := if change then Written(tags) else NothingToDo;
    }

    /** One round: the scripts of a set run in an order that Python does not fix. */
    static method RunRound(reg: Registry, ready: set<Tag>, start: set<Tag>) returns (tags: set<Tag>, ran: seq<Tag>)
      requires Valid(reg) && Pending(reg, ready, start)
      ensures tags == After(reg, ready, start)
      ensures |ran| == |ready| && Elements(ran) == ready
    {
      tags, ran := start, [];
      var todo := ready;
      ghost var applied: set<Tag> := {};
      while todo != {}
        invariant applied !! todo && applied + todo == ready
        invariant tags == After(reg, applied, start)
        invariant |ran| == |applied| && Elements(ran) == applied
        decreases todo
      {
        var t :| t in todo;
        ElementsNext(ran, t);
        AfterNext(reg, applied, t, start);
        if reg.byTag[t].upgrades {
          tags := tags + {t};
        } else {
          assert t in tags;                // so that tags.remove(t) cannot fail
          tags := tags - {t};
        }
        ran, applied, todo := ran + [t], applied + {t}, todo - {t};
      }
    }
  }

  /** What is pending is known, and what is to be downgraded is still present. */
  ghost predicate Pending(reg: Registry, pending: set<Tag>, tags: set<Tag>) {
    pending <= reg.tagSet + reg.untagSet && pending * reg.untagSet <= tags
  }

  lemma PendingNext(reg: Registry, pending: set<Tag>, tags: set<Tag>, ready: set<Tag>)
    requires Pending(reg, pending, tags) && ready <= pending
    ensures Pending(reg, ready, tags)
    ensures Pending(reg, pending - ready, After(reg, ready, tags))
  {
  }

  lemma ElementsNext(s: seq<Tag>, t: Tag)
    ensures Elements(s + [t]) == Elements(s) + {t}
  {
  }

  lemma AfterNext(reg: Registry, applied: set<Tag>, t: Tag, tags: set<Tag>)
    requires Valid(reg) && t in reg.tagSet + reg.untagSet && t !in applied
    ensures After(reg, applied + {t}, tags) ==
      if reg.byTag[t].upgrades then After(reg, applied, tags) + {t} else After(reg, applied, tags) - {t}
  {
  }

  /** A run that begins with these rounds and goes on like the rest. */
  ghost predicate Follows(run: Run, done: seq<set<Tag>>, rest: Run) {
    run == Run(done + rest.rounds, rest.tags, rest.stuck)
  }

  lemma FollowsNext(reg: Registry, run: Run, done: seq<set<Tag>>, pending: set<Tag>, tags: set<Tag>, ready: set<Tag>)
    requires pending <= reg.byTag.Keys && pending != {} && ready == Ready(reg, pending, tags) && ready != {}
    requires Follows(run, done, Rounds(reg, pending, tags))
    ensures Follows(run, done + [ready], Rounds(reg, pending - ready, After(reg, ready, tags)))
  {
  }

  function Report(run: Run, changed: bool): Outcome {
    if run.stuck != {} then Unresolved(run.stuck)
    else if changed || run.rounds != [] then Written(run.tags)
    else NothingToDo
  }
}
