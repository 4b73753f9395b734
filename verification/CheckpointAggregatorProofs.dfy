/** What merging checkpoints keeps: sections keep apart by their names, and every address still
    reads the byte it read before. */
module CheckpointAggregatorProofs {
  import opened Files
  import opened Text
  import opened CheckpointAggregator

  // ---------------------------------------------------------------- renaming is injective

  lemma RenameStarts(s: string, tag: string)
    ensures Rename(s, tag) == [] <==> s == []
    ensures s != [] && !CpuAt(s, 0) ==> Rename(s, tag)[0] == s[0]
    ensures CpuAt(Rename(s, tag), 0) <==> CpuAt(s, 0)
  {
    var r := Rename(s, tag);
    if CpuAt(r, 0) && !CpuAt(s, 0) {
      assert r[1..] == Rename(s[1..], tag);
      SecondLetters(s[1..], tag);
    }
  }

  /** A name that does not start a "cpu" with its first letter keeps its first two letters. */
  lemma SecondLetters(s: string, tag: string)
    requires |Rename(s, tag)| >= 2 && Rename(s, tag)[0] == 'p' && Rename(s, tag)[1] == 'u'
    ensures |s| >= 2 && s[0] == 'p' && s[1] == 'u'
  {
  }

  lemma {:induction false} RenameSame(s: string, t: string, tag: string)
    requires Rename(s, tag) == Rename(t, tag)
    ensures s == t
  {
    RenameStarts(s, tag);
    RenameStarts(t, tag);
    if s != [] {
      var r := Rename(s, tag);
      if CpuAt(s, 0) {
        assert r[3 + |tag|..] == Rename(s[3..], tag) == Rename(t[3..], tag);
        RenameSame(s[3..], t[3..], tag);
        assert s == s[..3] + s[3..] && t == t[..3] + t[3..] && s[..3] == t[..3];
      } else {
        assert r[1..] == Rename(s[1..], tag) == Rename(t[1..], tag);
        RenameSame(s[1..], t[1..], tag);
        assert s == [s[0]] + s[1..] && t == [t[0]] + t[1..];
      }
    }
  }

  lemma HasCpuNext(s: string)
    requires s != []
    ensures HasCpu(s) <==> CpuAt(s, 0) || HasCpu(s[1..])
  {
    if HasCpu(s) && !CpuAt(s, 0) {
      var i :| 0 <= i < |s| && CpuAt(s, i);
      assert CpuAt(s[1..], i - 1);
    }
    if HasCpu(s[1..]) {
      var i :| 0 <= i < |s| - 1 && CpuAt(s[1..], i);
      assert CpuAt(s, i + 1);
    }
  }

  /** With tags of one width, the name written tells both the section and the tag. */
  lemma {:induction false} RenameInjective(s: string, t: string, a: string, b: string)
    requires HasCpu(s) && HasCpu(t) && |a| == |b| && Rename(s, a) == Rename(t, b)
    ensures s == t && a == b
  {
    RenameStarts(s, a);
    RenameStarts(t, b);
    var r := Rename(s, a);
    if CpuAt(s, 0) {
      assert r[3..3 + |a|] == a && r[3..3 + |a|] == b;
      RenameSame(s, t, a);
    } else {
      HasCpuNext(s);
      HasCpuNext(t);
      assert r[1..] == Rename(s[1..], a) == Rename(t[1..], b);
      RenameInjective(s[1..], t[1..], a, b);
      assert s == [s[0]] + s[1..] && t == [t[0]] + t[1..];
    }
  }

  lemma {:induction false} RenamedHasCpu(s: string, tag: string)
    requires HasCpu(s)
    ensures HasCpu(Rename(s, tag))
  {
    RenameStarts(s, tag);
    if CpuAt(s, 0) {
      assert CpuAt(Rename(s, tag), 0);
    } else {
      HasCpuNext(s);
      RenamedHasCpu(s[1..], tag);
      assert Rename(s, tag)[1..] == Rename(s[1..], tag);
      HasCpuNext(Rename(s, tag));
    }
  }

  lemma {:induction false} LongerNumerals(i: nat, j: nat)
    requires i <= j
    ensures |ShowNat(i)| <= |ShowNat(j)|
  {
    if j >= 10 {
      if i >= 10 { LongerNumerals(i / 10, j / 10); }
    }
  }

  lemma {:induction false} ZerosRead(k: nat, s: string)
    requires AllDigits(s)
    ensures AllDigits(Zeros(k) + s) && ReadNat(Zeros(k) + s) == ReadNat(s)
  {
    var z := Zeros(k) + s;
    if s != [] {
      ZerosRead(k, s[..|s| - 1]);
      assert z[..|z| - 1] == Zeros(k) + s[..|s| - 1];
    } else if k > 0 {
      assert z == Zeros(k) && z[..k - 1] == Zeros(k - 1);
      assert Zeros(k - 1) + s == Zeros(k - 1);
      ZerosRead(k - 1, s);
    } else {
      assert z == s;
    }
  }

  lemma TagTells(i: nat, n: nat)
    requires i < n
    ensures |Tag(i, n)| == |ShowNat(n - 1)| && AllDigits(Tag(i, n)) && ReadNat(Tag(i, n)) == i
  {
    LongerNumerals(i, n - 1);
    ReadShow(i);
    ZerosRead(|ShowNat(n - 1)| - |ShowNat(i)|, ShowNat(i));
  }

  /** Sections of different checkpoints, or different sections of one, never get the same name. */
  lemma RenamingTellsApart(i: nat, j: nat, n: nat, s: string, t: string)
    requires i < n && j < n && HasCpu(s) && HasCpu(t)
    ensures Rename(s, Tag(i, n)) == Rename(t, Tag(j, n)) <==> i == j && s == t
  {
    TagTells(i, n);
    TagTells(j, n);
    if Rename(s, Tag(i, n)) == Rename(t, Tag(j, n)) {
      RenameInjective(s, t, Tag(i, n), Tag(j, n));
    }
  }

  /** The padding is needed: plain numerals would make names of checkpoints 1 and 11 collide. */
  lemma PlainNumeralsCollide()
    ensures HasCpu("cpu1") && HasCpu("cpu")
    ensures Rename("cpu1", ShowNat(1)) == Rename("cpu", ShowNat(11))
  {
    assert CpuAt("cpu1", 0) && CpuAt("cpu", 0);
    assert ShowNat(1) == "1" && ShowNat(11) == ShowNat(1) + "1" == "11";
    assert "cpu1"[3..] == "1" && "1"[1..] == "" && "cpu"[3..] == "";
    assert Rename("", ShowNat(1)) == "" && Rename("", ShowNat(11)) == "";
    assert Rename("1", ShowNat(1)) == "1";
  }

  /** Every "cpu" from the first one on gets the tag, and the rest of the name stays. */
  lemma {:induction false} RenameFirst(a: string, b: string, tag: string)
    requires forall i :: 0 <= i < |a| ==> !CpuAt(a + "cpu" + b, i)
    ensures Rename(a + "cpu" + b, tag) == a + "cpu" + tag + Rename(b, tag)
  {
    var s := a + "cpu" + b;
    if a == [] {
      assert s[3..] == b;
    } else {
      assert !CpuAt(s, 0) && s[1..] == a[1..] + "cpu" + b;
      forall i | 0 <= i < |a[1..]| ensures !CpuAt(s[1..], i) {
        assert !CpuAt(s, i + 1);
      }
      RenameFirst(a[1..], b, tag);
    }
  }

  lemma {:induction false} RenameNothing(s: string, tag: string)
    requires !HasCpu(s)
    ensures Rename(s, tag) == s
  {
    if s != [] {
      assert !CpuAt(s, 0);
      HasCpuNext(s);
      RenameNothing(s[1..], tag);
      assert s == [s[0]] + s[1..];
    }
  }

  lemma HasCpuWithin(a: string, b: string)
    ensures HasCpu(a + "cpu" + b)
  {
    assert CpuAt(a + "cpu" + b, |a|);
  }

  lemma HasCpuParts(s: string) returns (a: string, b: string)
    requires HasCpu(s)
    ensures s == a + "cpu" + b
  {
    var i :| 0 <= i < |s| && CpuAt(s, i);
    a, b := s[..i], s[i + 3..];
    assert s == s[..i] + [s[i], s[i + 1], s[i + 2]] + s[i + 3..];
  }

  lemma FdMapMeans(s: string)
    ensures IsFdMap(s) <==> |s| >= 17 && s == s[..|s| - 17] + "workload" + [s[|s| - 9]] + "FdMap256"
  {
    if |s| >= 17 {
      var n := |s| - 17;
      assert s == s[..n] + s[n..n + 8] + [s[n + 8]] + s[n + 9..];
      if s == s[..n] + "workload" + [s[n + 8]] + "FdMap256" {
        assert s[n..n + 8] == "workload" && s[n + 9..] == "FdMap256";
      }
    }
  }

  /** A processor keeps its options but the address, and the process of a file table. */
  lemma ProcessorOptions(sec: Section, i: nat, n: nat, pagePtr: int, key: string)
    requires i < n && HasCpu(sec.name) && CpuSection(sec, i, n, pagePtr).Ok?
    ensures var s := CpuSection(sec, i, n, pagePtr).value;
            && (key != "paddr" && key != "M5_pid" ==>
                  (key in s.items <==> key in sec.items) && (key in s.items ==> s.items[key] == sec.items[key]))
            && ("paddr" in s.items <==> "paddr" in sec.items)
            && (IsFdMap(sec.name) ==> "M5_pid" in s.items && s.items["M5_pid"] == ShowNat(i))
            && (!IsFdMap(sec.name) && "M5_pid" in s.items ==>
                  "M5_pid" in sec.items && s.items["M5_pid"] == sec.items["M5_pid"])
  {
    hide Rename, Tag, ShowNat, ShowInt, ParseInt, IsFdMap;
  }

  // ---------------------------------------------------------------- memory

  function PagesOf(cpt: Checkpoint): int { if Pages(cpt).Ok? then Pages(cpt).value else 0 }

  /** The pages of the first k checkpoints: where the memory of checkpoint k is meant to start. */
  function TotalPages(cpts: seq<Checkpoint>, k: nat): int
    requires k <= |cpts|
  {
    if k == 0 then 0 else TotalPages(cpts, k - 1) + PagesOf(cpts[k - 1])
  }

  function Laid(cpts: seq<Checkpoint>, k: nat): seq<Byte>
    requires k <= |cpts|
  {
    if k == 0 then [] else Laid(cpts, k - 1) + FirstPages(cpts[k - 1].memory, PagesOf(cpts[k - 1]))
  }

  lemma {:induction false} StepsLayOut(cpts: seq<Checkpoint>, k: nat)
    requires k <= |cpts| && Steps(cpts, k).Ok?
    ensures Steps(cpts, k).value.pagePtr == TotalPages(cpts, k)
    ensures Steps(cpts, k).value.memory == Laid(cpts, k)
  {
    hide VisitAll, Pages, FirstPages;
    if k > 0 { StepsLayOut(cpts, k - 1); }
  }

  /** No page count is negative: it is unsigned where it comes from. */
  predicate Unsigned(cpts: seq<Checkpoint>) { forall i :: 0 <= i < |cpts| ==> PagesOf(cpts[i]) >= 0 }

  predicate HoldsItsPages(cpt: Checkpoint) { |cpt.memory| >= PagesOf(cpt) * PAGE_SIZE }

  lemma FirstPagesSize(cpt: Checkpoint)
    requires PagesOf(cpt) >= 0
    ensures var f := FirstPages(cpt.memory, PagesOf(cpt));
            f <= cpt.memory && |f| <= PagesOf(cpt) * PAGE_SIZE
            && (|f| == PagesOf(cpt) * PAGE_SIZE <==> HoldsItsPages(cpt))
  {
  }

  lemma {:induction false} LaidAtMost(cpts: seq<Checkpoint>, k: nat)
    requires k <= |cpts| && Unsigned(cpts)
    ensures TotalPages(cpts, k) >= 0 && |Laid(cpts, k)| <= TotalPages(cpts, k) * PAGE_SIZE
  {
    hide PagesOf, FirstPages;
    if k > 0 {
      LaidAtMost(cpts, k - 1);
      FirstPagesSize(cpts[k - 1]);
    }
  }

  /** Memories lie where the page counts say exactly when no image is short. */
  lemma {:induction false} InPlaceIffComplete(cpts: seq<Checkpoint>, k: nat)
    requires k <= |cpts| && Unsigned(cpts)
    ensures |Laid(cpts, k)| == TotalPages(cpts, k) * PAGE_SIZE <==> forall j :: 0 <= j < k ==> HoldsItsPages(cpts[j])
  {
    hide PagesOf, FirstPages, HoldsItsPages;
    if k > 0 {
      LaidAtMost(cpts, k - 1);
      FirstPagesSize(cpts[k - 1]);
      InPlaceIffComplete(cpts, k - 1);
    }
  }

  lemma {:induction false} LaidStays(cpts: seq<Checkpoint>, i: nat, k: nat, p: nat)
    requires i <= k <= |cpts| && p < |Laid(cpts, i)|
    ensures p < |Laid(cpts, k)| && Laid(cpts, k)[p] == Laid(cpts, i)[p]
  {
    hide PagesOf, FirstPages;
    if i < k { LaidStays(cpts, i, k - 1, p); }
  }

  /** Every byte of the pages of checkpoint i is found behind the pages of those before it. */
  lemma ByteMoves(cpts: seq<Checkpoint>, i: nat, a: nat)
    requires i < |cpts| && Unsigned(cpts) && forall j :: 0 <= j < i ==> HoldsItsPages(cpts[j])
    requires a < PagesOf(cpts[i]) * PAGE_SIZE && HoldsItsPages(cpts[i])
    ensures var p := a + TotalPages(cpts, i) * PAGE_SIZE;
            0 <= p < |Laid(cpts, |cpts|)| && Laid(cpts, |cpts|)[p] == cpts[i].memory[a]
  {
    hide PagesOf, FirstPages;
    LaidAtMost(cpts, i);
    InPlaceIffComplete(cpts, i);
    FirstPagesSize(cpts[i]);
    LaidStays(cpts, i + 1, |cpts|, a + TotalPages(cpts, i) * PAGE_SIZE);
  }

  lemma {:induction false} PadReaches(pages: int, memorySize: Option<int>)
    ensures var p := PadPages(pages, memorySize);
            && (memorySize.Some? ==> (pages + p) * PAGE_SIZE >= memorySize.value)
            && (p > 0 ==> memorySize.Some? && (pages + p - 1) * PAGE_SIZE < memorySize.value)
    decreases PadPages(pages, memorySize)
  {
    if memorySize.Some? && pages * PAGE_SIZE < memorySize.value { PadReaches(pages + 1, memorySize); }
  }

  /** The size recorded is at least the size asked for and has no page too many; it is the size of
      the file exactly when no image is short; and only '0' characters are added to the images. */
  lemma SizeIsRight(cpts: seq<Checkpoint>, memorySize: Option<int>)
    requires cpts != [] && Unsigned(cpts) && Aggregated(cpts, memorySize).Ok?
    ensures var o := Aggregated(cpts, memorySize).value;
            && TotalPages(cpts, |cpts|) <= o.pagePtr
            && (memorySize.Some? ==> o.pagePtr * PAGE_SIZE >= memorySize.value)
            && (o.pagePtr > TotalPages(cpts, |cpts|) ==>
                  memorySize.Some? && (o.pagePtr - 1) * PAGE_SIZE < memorySize.value)
    ensures var o := Aggregated(cpts, memorySize).value;
            |o.memory| == o.pagePtr * PAGE_SIZE <==> forall i :: 0 <= i < |cpts| ==> HoldsItsPages(cpts[i])
    ensures var o := Aggregated(cpts, memorySize).value;
            && Laid(cpts, |cpts|) <= o.memory
            && forall p :: |Laid(cpts, |cpts|)| <= p < |o.memory| ==> o.memory[p] == '0' as int
  {
    hide Steps, HoldsItsPages, PadPages, Named, SetItem, ShowInt, ShowNat;
    StepsLayOut(cpts, |cpts|);
    InPlaceIffComplete(cpts, |cpts|);
    PadReaches(TotalPages(cpts, |cpts|), memorySize);
  }

  // ---------------------------------------------------------------- sections

  predicate NamesDiffer(config: seq<Section>) {
    forall i, j :: 0 <= i < j < |config| ==> config[i].name != config[j].name
  }

  /** s is what section sec of checkpoint i becomes. */
  predicate Becomes(sec: Section, i: nat, n: nat, pagePtr: int, s: Section)
    requires i < n
  {
    if HasCpu(sec.name) then CpuSection(sec, i, n, pagePtr) == Ok(s)
    else i == n - 1 && sec.name != "system" && sec.name != "Globals" && s == sec
  }

  function WrittenName(sec: Section, i: nat, n: nat): string
    requires i < n
  {
    if HasCpu(sec.name) then Rename(sec.name, Tag(i, n)) else sec.name
  }

  /** The name written tells the section and, for processors, the checkpoint it comes from. */
  lemma WrittenNamesApart(a: Section, i: nat, b: Section, j: nat, n: nat)
    requires i < n && j < n && WrittenName(a, i, n) == WrittenName(b, j, n)
    ensures a.name == b.name && (HasCpu(a.name) ==> i == j)
  {
    hide Rename, HasCpu, Tag;
    if HasCpu(a.name) { RenamedHasCpu(a.name, Tag(i, n)); }
    if HasCpu(b.name) { RenamedHasCpu(b.name, Tag(j, n)); }
    if HasCpu(a.name) && HasCpu(b.name) { RenamingTellsApart(i, j, n, a.name, b.name); }
  }

  ghost predicate Made(secs: seq<Section>, i: nat, n: nat, pagePtr: int, s: Section)
    requires i < n
  {
    exists k :: 0 <= k < |secs| && Becomes(secs[k], i, n, pagePtr, s)
  }

  lemma MadeNext(secs: seq<Section>, i: nat, n: nat, pagePtr: int, s: Section)
    requires i < n && secs != []
    ensures Made(secs, i, n, pagePtr, s)
       <==> Made(secs[..|secs| - 1], i, n, pagePtr, s) || Becomes(secs[|secs| - 1], i, n, pagePtr, s)
  {
  }

  /** One turn, when no section drafted so far has the name that is to be added. */
  lemma VisitAdds(d: Draft, sec: Section, i: nat, n: nat, pagePtr: int)
    requires i < n && !Named(d.out, WrittenName(sec, i, n))
    ensures Visit(d, sec, i, n, pagePtr) != Err(DuplicateSection)
    ensures Visit(d, sec, i, n, pagePtr).Ok? ==>
              var out := Visit(d, sec, i, n, pagePtr).value.out;
              && (out == d.out || (out == d.out + [out[|d.out|]] && out[|d.out|].name == WrittenName(sec, i, n)))
              && forall s :: s in out[|d.out|..] <==> Becomes(sec, i, n, pagePtr, s)
  {
  }

  lemma NewName(secs: seq<Section>, out: seq<Section>, i: nat, n: nat, pagePtr: int)
    requires secs != [] && i < n && NamesDiffer(secs)
    requires forall s :: s in out ==> Made(secs[..|secs| - 1], i, n, pagePtr, s)
    ensures !Named(out, WrittenName(secs[|secs| - 1], i, n))
  {
    hide Rename, Tag, HasCpu, Moved;
    var last := |secs| - 1;
    forall x | 0 <= x < |out| ensures out[x].name != WrittenName(secs[last], i, n) {
      assert out[x] in out;
      var k :| 0 <= k < last && Becomes(secs[k], i, n, pagePtr, out[x]);
      assert out[x].name == WrittenName(secs[k], i, n);
      if out[x].name == WrittenName(secs[last], i, n) {
        WrittenNamesApart(secs[k], i, secs[last], i, n);
      }
    }
  }

  /** The sections drafted for a checkpoint are those it is to become, under different names, and
      adding one never fails. */
  lemma {:induction false} VisitAllMakes(secs: seq<Section>, maxTick: int, i: nat, n: nat, pagePtr: int)
    requires i < n && NamesDiffer(secs)
    ensures VisitAll(Draft([], maxTick), secs, i, n, pagePtr) != Err(DuplicateSection)
    ensures VisitAll(Draft([], maxTick), secs, i, n, pagePtr).Ok? ==>
              var out := VisitAll(Draft([], maxTick), secs, i, n, pagePtr).value.out;
              NamesDiffer(out) && forall s :: s in out <==> Made(secs, i, n, pagePtr, s)
  {
    hide Visit, Becomes, WrittenName;
    if secs != [] {
      var front, sec := secs[..|secs| - 1], secs[|secs| - 1];
      VisitAllMakes(front, maxTick, i, n, pagePtr);
      var r := VisitAll(Draft([], maxTick), front, i, n, pagePtr);
      if r.Ok? {
        NewName(secs, r.value.out, i, n, pagePtr);
        VisitAdds(r.value, sec, i, n, pagePtr);
        var next := Visit(r.value, sec, i, n, pagePtr);
        if next.Ok? {
          var out := next.value.out;
          assert out == r.value.out + out[|r.value.out|..];
          forall s ensures s in out <==> Made(secs, i, n, pagePtr, s) {
            MadeNext(secs, i, n, pagePtr, s);
          }
        }
      }
    }
  }

  // ---------------------------------------------------------------- sections of the whole run

  /** s comes from checkpoint j. */
  ghost predicate From(cpts: seq<Checkpoint>, j: nat, s: Section)
    requires j < |cpts|
  {
    Made(cpts[j].config, j, |cpts|, TotalPages(cpts, j), s)
  }

  lemma NotOfProcessors()
    ensures !HasCpu("system") && !HasCpu("Globals") && !HasCpu(STORE)
  {
  }

  lemma FromNamed(cpts: seq<Checkpoint>, j: nat, s: Section)
    requires j < |cpts| && From(cpts, j, s)
    ensures s.name != "system" && s.name != "Globals"
    ensures j < |cpts| - 1 ==> HasCpu(s.name)
  {
    hide Rename, Tag, HasCpu, Moved;
    var k :| 0 <= k < |cpts[j].config| && Becomes(cpts[j].config[k], j, |cpts|, TotalPages(cpts, j), s);
    NotOfProcessors();
    if HasCpu(cpts[j].config[k].name) { RenamedHasCpu(cpts[j].config[k].name, Tag(j, |cpts|)); }
  }

  lemma FromApart(cpts: seq<Checkpoint>, i: nat, s: Section, j: nat, t: Section)
    requires i < j < |cpts| && From(cpts, i, s) && From(cpts, j, t)
    ensures s.name != t.name
  {
    hide Rename, Tag, HasCpu, Moved;
    var n := |cpts|;
    var k :| 0 <= k < |cpts[i].config| && Becomes(cpts[i].config[k], i, n, TotalPages(cpts, i), s);
    var l :| 0 <= l < |cpts[j].config| && Becomes(cpts[j].config[l], j, n, TotalPages(cpts, j), t);
    assert s.name == WrittenName(cpts[i].config[k], i, n) && t.name == WrittenName(cpts[j].config[l], j, n);
    if s.name == t.name { WrittenNamesApart(cpts[i].config[k], i, cpts[j].config[l], j, n); }
  }

  ghost predicate SectionsDiffer(cpts: seq<Checkpoint>) {
    forall i :: 0 <= i < |cpts| ==> NamesDiffer(cpts[i].config)
  }

  ghost predicate FromSome(cpts: seq<Checkpoint>, k: nat, s: Section)
    requires k <= |cpts|
  {
    exists j :: 0 <= j < k && From(cpts, j, s)
  }

  lemma FromSomeNext(cpts: seq<Checkpoint>, k: nat, s: Section)
    requires k < |cpts|
    ensures FromSome(cpts, k + 1, s) <==> FromSome(cpts, k, s) || From(cpts, k, s)
  {
  }

  /** What is written is what comes from the checkpoints whose turn is over; the draft of the last
      one is still open. */
  ghost predicate RunInv(cpts: seq<Checkpoint>, k: nat, st: State)
    requires k <= |cpts|
  {
    && NamesDiffer(st.written) && NamesDiffer(st.merged)
    && (forall s :: s in st.written <==> FromSome(cpts, if k < |cpts| || k == 0 then k else k - 1, s))
    && (k > 0 ==> forall s :: s in st.merged <==> From(cpts, k - 1, s))
  }

  lemma Joined(a: seq<Section>, b: seq<Section>)
    requires NamesDiffer(a) && NamesDiffer(b)
    requires forall s, t :: s in a && t in b ==> s.name != t.name
    ensures NamesDiffer(a + b)
  {
  }

  lemma WrittenGrows(cpts: seq<Checkpoint>, k: nat, written: seq<Section>, out: seq<Section>)
    requires k < |cpts| && NamesDiffer(written) && NamesDiffer(out)
    requires forall s :: s in written <==> FromSome(cpts, k, s)
    requires forall s :: s in out <==> From(cpts, k, s)
    ensures NamesDiffer(written + out)
    ensures forall s :: s in written + out <==> FromSome(cpts, k + 1, s)
  {
    hide From;
    forall s, t | s in written && t in out ensures s.name != t.name {
      var j :| 0 <= j < k && From(cpts, j, s);
      FromApart(cpts, j, s, k, t);
    }
    Joined(written, out);
    forall s ensures s in written + out <==> FromSome(cpts, k + 1, s) {
      FromSomeNext(cpts, k, s);
    }
  }

  lemma {:induction false} StepsMake(cpts: seq<Checkpoint>, k: nat)
    requires k <= |cpts| && SectionsDiffer(cpts)
    ensures Steps(cpts, k) != Err(DuplicateSection)
    ensures Steps(cpts, k).Ok? ==> RunInv(cpts, k, Steps(cpts, k).value)
  {
    hide Step, From, SectionsDiffer;
    if k > 0 {
      StepsMake(cpts, k - 1);
      if Steps(cpts, k - 1).Ok? {
        StepMakes(cpts, k - 1, Steps(cpts, k - 1).value);
      }
    }
  }

  lemma PagesErrors(cpt: Checkpoint)
    ensures Pages(cpt) != Err(DuplicateSection)
  {
  }

  lemma StepMakes(cpts: seq<Checkpoint>, k: nat, st: State)
    requires k < |cpts| && SectionsDiffer(cpts) && Steps(cpts, k) == Ok(st) && RunInv(cpts, k, st)
    ensures Step(st, cpts[k], k, |cpts|) != Err(DuplicateSection)
    ensures Step(st, cpts[k], k, |cpts|).Ok? ==> RunInv(cpts, k + 1, Step(st, cpts[k], k, |cpts|).value)
  {
    hide VisitAll, Pages, FirstPages, Made, Steps, FromSome;
    StepsLayOut(cpts, k);
    VisitAllMakes(cpts[k].config, st.maxTick, k, |cpts|, st.pagePtr);
    PagesErrors(cpts[k]);
    var r := VisitAll(Draft([], st.maxTick), cpts[k].config, k, |cpts|, st.pagePtr);
    if r.Ok? {
      WrittenGrows(cpts, k, st.written, r.value.out);
    }
  }

  lemma {:induction false} SetItemIs(config: seq<Section>, name: string, key: string, value: string)
    ensures var r := SetItem(config, name, key, value);
            |r| == |config| && forall i :: 0 <= i < |r| ==>
              r[i].name == config[i].name && (config[i].name != name ==> r[i] == config[i])
  {
    if config != [] { SetItemIs(config[1..], name, key, value); }
  }

  /** Closing the file adds the two sections left out on the way, and touches no processor. */
  lemma {:induction false} FinishKeeps(st: State, n: nat, memorySize: Option<int>)
    requires NamesDiffer(st.written + st.merged) && Finish(st, n, memorySize).Ok?
    requires forall s :: s in st.written + st.merged ==> s.name != "system" && s.name != "Globals"
    ensures NamesDiffer(Finish(st, n, memorySize).value.config)
    ensures forall s: Section :: HasCpu(s.name) ==>
              (s in Finish(st, n, memorySize).value.config <==> s in st.written + st.merged)
  {
    hide SetItem, PadPages, ShowInt, ShowNat, HasCpu, Named;
    NotOfProcessors();
    var o := Finish(st, n, memorySize).value;
    var w := |st.written|;
    var all := st.written + st.merged;
    var pad := PadPages(st.pagePtr, memorySize);
    var system := Section("system", map["pagePtr" := ShowInt(st.pagePtr), "nextPID" := ShowNat(n)]);
    var size := ShowInt((st.pagePtr + pad) * PAGE_SIZE);
    SetItemIs(st.merged + [system], STORE, "range_size", size);
    assert |o.config| == |all| + 2;
    forall i | 0 <= i < |all|
      ensures o.config[i].name == all[i].name && (all[i].name != STORE ==> o.config[i] == all[i])
    {
      if i >= w {
        assert o.config[i] == SetItem(st.merged + [system], STORE, "range_size", size)[i - w];
      }
    }
    assert o.config[|all|].name == "system" && o.config[|all| + 1].name == "Globals";
    forall i | 0 <= i < |all| ensures all[i].name != "system" && all[i].name != "Globals" {
      assert all[i] in all;
    }
    SameProcessors(o.config, all);
  }

  lemma SameProcessors(config: seq<Section>, all: seq<Section>)
    requires |config| == |all| + 2 && !HasCpu(config[|all|].name) && !HasCpu(config[|all| + 1].name)
    requires forall i :: 0 <= i < |all| ==>
      config[i].name == all[i].name && (all[i].name != STORE ==> config[i] == all[i])
    ensures forall s: Section :: HasCpu(s.name) ==> (s in config <==> s in all)
  {
  }

  /** No two sections of the merged file share a name, so that reading it back loses none, and
      ConfigParser never objects; its processors are those of all checkpoints. */
  lemma MergedSections(cpts: seq<Checkpoint>, memorySize: Option<int>)
    requires cpts != [] && SectionsDiffer(cpts)
    ensures Aggregated(cpts, memorySize) != Err(DuplicateSection)
    ensures Aggregated(cpts, memorySize).Ok? ==>
              var config := Aggregated(cpts, memorySize).value.config;
              && NamesDiffer(config)
              && forall s: Section :: HasCpu(s.name) ==> (s in config <==> FromSome(cpts, |cpts|, s))
  {
    hide Steps, Finish, From, FromSome, HasCpu, SectionsDiffer;
    var n := |cpts|;
    StepsMake(cpts, n);
    if Steps(cpts, n).Ok? {
      var st := Steps(cpts, n).value;
      WrittenGrowsAtEnd(cpts, st);
      assert Finish(st, n, memorySize) != Err(DuplicateSection) by {
        NoReservedNames(st);
        FinishErrors(st, n, memorySize);
      }
      if Finish(st, n, memorySize).Ok? {
        FinishKeeps(st, n, memorySize);
      }
    }
  }

  lemma WrittenGrowsAtEnd(cpts: seq<Checkpoint>, st: State)
    requires cpts != [] && RunInv(cpts, |cpts|, st)
    ensures NamesDiffer(st.written + st.merged)
    ensures forall s :: s in st.written + st.merged <==> FromSome(cpts, |cpts|, s)
    ensures forall s :: s in st.written + st.merged ==> s.name != "system" && s.name != "Globals"
  {
    hide From;
    WrittenGrows(cpts, |cpts| - 1, st.written, st.merged);
    forall s | s in st.written + st.merged ensures s.name != "system" && s.name != "Globals" {
      assert FromSome(cpts, |cpts|, s);
      var j :| 0 <= j < |cpts| && From(cpts, j, s);
      FromNamed(cpts, j, s);
    }
  }

  lemma NoReservedNames(st: State)
    requires forall s :: s in st.written + st.merged ==> s.name != "system" && s.name != "Globals"
    ensures !Named(st.merged, "system") && !Named(st.merged, "Globals")
  {
  }

  lemma FinishErrors(st: State, n: nat, memorySize: Option<int>)
    requires !Named(st.merged, "system") && !Named(st.merged, "Globals")
    ensures Finish(st, n, memorySize) != Err(DuplicateSection)
  {
  }

  // ---------------------------------------------------------------- what is recorded of the whole

  /** A tick is at least that of every Globals section and is one of them, or it is the initial one. */
  ghost predicate GreatestTick(initial: int, secs: seq<Section>, max: int) {
    && initial <= max
    && (forall s :: s in secs && s.name == "Globals" ==>
          Number(s.items, "curTick").Ok? && Number(s.items, "curTick").value <= max)
    && (max == initial || exists s :: s in secs && s.name == "Globals" && Number(s.items, "curTick") == Ok(max))
  }

  lemma {:induction false} VisitsGreatest(d: Draft, secs: seq<Section>, i: nat, n: nat, pagePtr: int)
    requires i < n && VisitAll(d, secs, i, n, pagePtr).Ok?
    ensures GreatestTick(d.maxTick, secs, VisitAll(d, secs, i, n, pagePtr).value.maxTick)
  {
    hide Number, Rename, Tag, HasCpu, CpuSection;
    if secs != [] {
      var front, sec := secs[..|secs| - 1], secs[|secs| - 1];
      assert secs == front + [sec];
      VisitsGreatest(d, front, i, n, pagePtr);
      NotOfProcessors();
    }
  }

  /** The greatest tick of all checkpoints, as far as they have one. */
  ghost predicate GreatestOfAll(cpts: seq<Checkpoint>, k: nat, max: int)
    requires k <= |cpts|
  {
    && 0 <= max
    && (forall i, s :: 0 <= i < k && s in cpts[i].config && s.name == "Globals" ==>
          Number(s.items, "curTick").Ok? && Number(s.items, "curTick").value <= max)
    && (max == 0 || exists i, s ::
          0 <= i < k && s in cpts[i].config && s.name == "Globals" && Number(s.items, "curTick") == Ok(max))
  }

  lemma {:induction false} StepsGreatest(cpts: seq<Checkpoint>, k: nat)
    requires k <= |cpts| && Steps(cpts, k).Ok?
    ensures GreatestOfAll(cpts, k, Steps(cpts, k).value.maxTick)
  {
    hide VisitAll, Pages, FirstPages, Number;
    if k > 0 {
      StepsGreatest(cpts, k - 1);
      var st := Steps(cpts, k - 1).value;
      VisitsGreatest(Draft([], st.maxTick), cpts[k - 1].config, k - 1, |cpts|, st.pagePtr);
      assert Steps(cpts, k).value.maxTick
          == VisitAll(Draft([], st.maxTick), cpts[k - 1].config, k - 1, |cpts|, st.pagePtr).value.maxTick;
    }
  }

  /** The file records the pages of all memories, the number of checkpoints, the greatest tick, and
      the size of the memory with its padding. */
  lemma RecordedOfAll(cpts: seq<Checkpoint>, memorySize: Option<int>)
    requires cpts != [] && Aggregated(cpts, memorySize).Ok?
    ensures var o := Aggregated(cpts, memorySize).value;
            && (exists s :: s in o.config && s.name == "system"
                  && Number(s.items, "pagePtr") == Ok(TotalPages(cpts, |cpts|))
                  && Number(s.items, "nextPID") == Ok(|cpts|))
            && (exists s, max :: s in o.config && s.name == "Globals" && Number(s.items, "curTick") == Ok(max)
                  && GreatestOfAll(cpts, |cpts|, max))
            && (exists s :: s in o.config && s.name == STORE
                  && Number(s.items, "range_size") == Ok(o.pagePtr * PAGE_SIZE))
  {
    hide Steps, GreatestOfAll, ShowInt, ShowNat, ParseInt;
    var st, n := Steps(cpts, |cpts|).value, |cpts|;
    var o := Aggregated(cpts, memorySize).value;
    StepsLayOut(cpts, n);
    StepsGreatest(cpts, n);
    ClosingSections(st, n, memorySize);
  }

  lemma ClosingSections(st: State, n: nat, memorySize: Option<int>)
    requires Finish(st, n, memorySize).Ok?
    ensures var o := Finish(st, n, memorySize).value;
            && (exists s :: s in o.config && s.name == "system" && Number(s.items, "pagePtr") == Ok(st.pagePtr)
                  && Number(s.items, "nextPID") == Ok(n))
            && (exists s :: s in o.config && s.name == "Globals" && Number(s.items, "curTick") == Ok(st.maxTick))
            && (exists s :: s in o.config && s.name == STORE
                  && Number(s.items, "range_size") == Ok(o.pagePtr * PAGE_SIZE))
  {
    hide PadPages, ShowInt, ShowNat, ParseInt, SetItem;
    var o := Finish(st, n, memorySize).value;
    var size := ShowInt(o.pagePtr * PAGE_SIZE);
    var system := Section("system", map["pagePtr" := ShowInt(st.pagePtr), "nextPID" := ShowNat(n)]);
    var globals := Section("Globals", map["curTick" := ShowInt(st.maxTick)]);
    var merged := st.merged + [system];
    var closed := SetItem(merged, STORE, "range_size", size);
    assert o.config == st.written + closed + [globals];
    ParseShowInt(st.pagePtr);
    ParseShowInt(n);
    ParseShowInt(st.maxTick);
    ParseShowInt(o.pagePtr * PAGE_SIZE);
    ShowNatIsShowInt(n);
    SetItemIs(merged, STORE, "range_size", size);
    assert closed[|st.merged|] == system;
    assert o.config[|st.written| + |st.merged|] == system;
    assert o.config[|o.config| - 1] == globals;
    var k :| 0 <= k < |st.merged| && st.merged[k].name == STORE;
    SetItemSets(merged, STORE, "range_size", size, k);
    assert merged[k].name == STORE && o.config[|st.written| + k] == closed[k];
  }

  lemma ShowNatIsShowInt(n: nat)
    ensures ShowInt(n) == ShowNat(n)
  {
  }

  lemma {:induction false} SetItemSets(config: seq<Section>, name: string, key: string, value: string, k: nat)
    requires k < |config| && config[k].name == name
    ensures var r := SetItem(config, name, key, value);
            |r| == |config| && r[k] == Section(name, config[k].items[key := value])
  {
    SetItemIs(config, name, key, value);
    if k > 0 { SetItemSets(config[1..], name, key, value, k - 1); }
  }

  /** Sections of the last checkpoint that are no processors stay as they are, but for the size of
      the memory; those of the others are dropped. */
  lemma OthersOfLast(cpts: seq<Checkpoint>, memorySize: Option<int>, s: Section)
    requires cpts != [] && SectionsDiffer(cpts) && Aggregated(cpts, memorySize).Ok?
    requires !HasCpu(s.name) && s.name != "system" && s.name != "Globals" && s.name != STORE
    ensures s in Aggregated(cpts, memorySize).value.config <==> s in cpts[|cpts| - 1].config
  {
    hide Steps, Finish, HasCpu, SectionsDiffer;
    var n := |cpts|;
    var st := Steps(cpts, n).value;
    StepsMake(cpts, n);
    WrittenGrowsAtEnd(cpts, st);
    FinishKeepsOthers(st, n, memorySize, s);
    if s in cpts[n - 1].config {
      var k :| 0 <= k < |cpts[n - 1].config| && cpts[n - 1].config[k] == s;
      assert Becomes(cpts[n - 1].config[k], n - 1, n, TotalPages(cpts, n - 1), s);
      assert From(cpts, n - 1, s);
    }
    if j: nat :| j < n && From(cpts, j, s) {
      FromNamed(cpts, j, s);
      OnlyCopied(cpts[j].config, j, n, TotalPages(cpts, j), s);
    }
  }

  lemma OnlyCopied(secs: seq<Section>, i: nat, n: nat, pagePtr: int, s: Section)
    requires i < n && Made(secs, i, n, pagePtr, s) && !HasCpu(s.name)
    ensures s in secs && i == n - 1
  {
    hide HasCpu, Rename, Tag, Moved;
    var k :| 0 <= k < |secs| && Becomes(secs[k], i, n, pagePtr, s);
    if HasCpu(secs[k].name) { RenamedHasCpu(secs[k].name, Tag(i, n)); }
  }

  lemma FinishKeepsOthers(st: State, n: nat, memorySize: Option<int>, s: Section)
    requires Finish(st, n, memorySize).Ok? && s.name != "system" && s.name != "Globals" && s.name != STORE
    ensures s in Finish(st, n, memorySize).value.config <==> s in st.written + st.merged
  {
    hide SetItem, PadPages, ShowInt, ShowNat, Named;
    var o := Finish(st, n, memorySize).value;
    var size := ShowInt(o.pagePtr * PAGE_SIZE);
    var system := Section("system", map["pagePtr" := ShowInt(st.pagePtr), "nextPID" := ShowNat(n)]);
    var globals := Section("Globals", map["curTick" := ShowInt(st.maxTick)]);
    var merged := st.merged + [system];
    SetItemIs(merged, STORE, "range_size", size);
    var closed := SetItem(merged, STORE, "range_size", size);
    assert o.config == st.written + closed + [globals];
    if s in closed {
      var k :| 0 <= k < |closed| && closed[k] == s;
      assert merged[k] == s;
    }
    if s in st.merged {
      var k :| 0 <= k < |st.merged| && st.merged[k] == s;
      assert merged[k] == s && closed[k] == s;
    }
  }

  // ---------------------------------------------------------------- addresses still mean the same

  lemma {:induction false} StepsPrefix(cpts: seq<Checkpoint>, i: nat, k: nat)
    requires i <= k <= |cpts| && Steps(cpts, k).Ok?
    ensures Steps(cpts, i).Ok?
  {
    hide Step;
    if i < k { StepsPrefix(cpts, i, k - 1); }
  }

  lemma {:induction false} ProcessorsAreMoved(d: Draft, secs: seq<Section>, i: nat, n: nat, pagePtr: int, k: nat)
    requires i < n && VisitAll(d, secs, i, n, pagePtr).Ok? && k < |secs| && HasCpu(secs[k].name)
    ensures CpuSection(secs[k], i, n, pagePtr).Ok?
  {
    hide CpuSection, HasCpu, Rename, Tag;
    if k < |secs| - 1 { ProcessorsAreMoved(d, secs[..|secs| - 1], i, n, pagePtr, k); }
  }

  /** In a run that succeeds every processor is written, moved by the pages before its checkpoint. */
  lemma {:induction false} ProcessorIsWritten(cpts: seq<Checkpoint>, memorySize: Option<int>, i: nat, k: nat)
    requires cpts != [] && SectionsDiffer(cpts) && Aggregated(cpts, memorySize).Ok?
    requires i < |cpts| && k < |cpts[i].config| && HasCpu(cpts[i].config[k].name)
    ensures CpuSection(cpts[i].config[k], i, |cpts|, TotalPages(cpts, i)).Ok?
    ensures CpuSection(cpts[i].config[k], i, |cpts|, TotalPages(cpts, i)).value
            in Aggregated(cpts, memorySize).value.config
  {
    hide Steps, Finish, HasCpu, SectionsDiffer, Rename, Tag, Pages, VisitAll, CpuSection;
    StepsPrefix(cpts, i, |cpts|);
    StepsPrefix(cpts, i + 1, |cpts|);
    StepsLayOut(cpts, i);
    StepVisits(cpts, i);
    var maxTick := Steps(cpts, i).value.maxTick;
    ProcessorsAreMoved(Draft([], maxTick), cpts[i].config, i, |cpts|, TotalPages(cpts, i), k);
    var s := CpuSection(cpts[i].config[k], i, |cpts|, TotalPages(cpts, i)).value;
    CpuSectionNamed(cpts[i].config[k], i, |cpts|, TotalPages(cpts, i));
    assert Becomes(cpts[i].config[k], i, |cpts|, TotalPages(cpts, i), s);
    assert From(cpts, i, s);
    assert FromSome(cpts, |cpts|, s);
    MergedSections(cpts, memorySize);
  }

  lemma StepVisits(cpts: seq<Checkpoint>, i: nat)
    requires i < |cpts| && Steps(cpts, i + 1).Ok?
    ensures Steps(cpts, i).Ok?
    ensures VisitAll(Draft([], Steps(cpts, i).value.maxTick), cpts[i].config, i, |cpts|,
                     Steps(cpts, i).value.pagePtr).Ok?
  {
  }

  lemma CpuSectionNamed(sec: Section, i: nat, n: nat, pagePtr: int)
    requires i < n && HasCpu(sec.name) && CpuSection(sec, i, n, pagePtr).Ok?
    ensures var s := CpuSection(sec, i, n, pagePtr).value;
            && s.name == Rename(sec.name, Tag(i, n)) && HasCpu(s.name)
            && ("paddr" in sec.items ==>
                  Number(sec.items, "paddr").Ok?
                  && Number(s.items, "paddr") == Ok(Number(sec.items, "paddr").value + pagePtr * PAGE_SIZE))
  {
    hide Rename, HasCpu, Tag, ParseInt, ShowInt, ShowNat;
    RenamedHasCpu(sec.name, Tag(i, n));
    if "paddr" in sec.items && Number(sec.items, "paddr").Ok? {
      ParseShowInt(Number(sec.items, "paddr").value + pagePtr * PAGE_SIZE);
    }
  }

  predicate SameByte(before: seq<Byte>, a: nat, after: seq<Byte>, shift: int)
    requires a < |before|
  {
    0 <= a + shift < |after| && after[a + shift] == before[a]
  }

  /** Each of the first size bytes reads the same at the address that is greater by shift. */
  ghost predicate SameBytes(before: seq<Byte>, size: int, after: seq<Byte>, shift: int)
    requires size <= |before|
  {
    forall a: nat :: a < size ==> SameByte(before, a, after, shift)
  }

  lemma BytesMove(cpts: seq<Checkpoint>, i: nat, after: seq<Byte>)
    requires i < |cpts| && Unsigned(cpts) && forall j :: 0 <= j < i ==> HoldsItsPages(cpts[j])
    requires HoldsItsPages(cpts[i]) && Laid(cpts, |cpts|) <= after
    ensures SameBytes(cpts[i].memory, PagesOf(cpts[i]) * PAGE_SIZE, after, TotalPages(cpts, i) * PAGE_SIZE)
  {
    hide Laid, TotalPages, Unsigned;
    var before, size, shift := cpts[i].memory, PagesOf(cpts[i]) * PAGE_SIZE, TotalPages(cpts, i) * PAGE_SIZE;
    assert size <= |before|;
    hide PagesOf, HoldsItsPages;
    forall a: nat | a < size ensures SameByte(before, a, after, shift) {
      ByteMoves(cpts, i, a);
    }
  }

  /** In a merged checkpoint, the section of a processor names an address moved by as many pages as
      its memory was moved by: what lay at a distance from it still does. */
  lemma {:induction false} AddressesFollow(cpts: seq<Checkpoint>, memorySize: Option<int>, i: nat, sec: Section)
    requires cpts != [] && SectionsDiffer(cpts) && Unsigned(cpts) && Aggregated(cpts, memorySize).Ok?
    requires i < |cpts| && (forall j :: 0 <= j < i ==> HoldsItsPages(cpts[j])) && HoldsItsPages(cpts[i])
    requires sec in cpts[i].config && HasCpu(sec.name) && "paddr" in sec.items
    ensures Number(sec.items, "paddr").Ok?
    ensures var o := Aggregated(cpts, memorySize).value;
            exists s :: s in o.config && s.name == Rename(sec.name, Tag(i, |cpts|)) && Number(s.items, "paddr").Ok?
              && SameBytes(cpts[i].memory, PagesOf(cpts[i]) * PAGE_SIZE, o.memory,
                           Number(s.items, "paddr").value - Number(sec.items, "paddr").value)
  {
    hide Aggregated, HasCpu, SectionsDiffer, Rename, Tag, PagesOf, CpuSection, Unsigned, SameBytes, Number;
    var k :| 0 <= k < |cpts[i].config| && cpts[i].config[k] == sec;
    ProcessorIsWritten(cpts, memorySize, i, k);
    CpuSectionNamed(sec, i, |cpts|, TotalPages(cpts, i));
    SizeIsRight(cpts, memorySize);
    BytesMove(cpts, i, Aggregated(cpts, memorySize).value.memory);
  }
}
