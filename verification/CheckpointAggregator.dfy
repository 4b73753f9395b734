/** Merging several checkpoints into one (gem5/util/checkpoint_aggregator.py): memories are laid
    end to end, physical addresses moved with them, and the sections of the processors renamed. */
module CheckpointAggregator {
  import opened Files
  import opened Text

  // ---------------------------------------------------------------- data

  /** A section of a configuration file; its options in no particular order. */
  datatype Section = Section(name: string, items: map<string, string>)

  /** A checkpoint directory: m5.cpt and the unpacked memory image. */
  datatype Checkpoint = Checkpoint(config: seq<Section>, memory: seq<Byte>)

  datatype Error = Missing | BadNumber | DuplicateSection

  datatype Result<+T> = Ok(value: T) | Err(error: Error)

  datatype Output = Output(config: seq<Section>, memory: seq<Byte>, pagePtr: int)

  const PAGE_SIZE: nat := 4096

  const STORE: string := "system.physmem.store0"

  // ---------------------------------------------------------------- names

  predicate CpuAt(s: string, i: nat) {
    i + 2 < |s| && s[i] == 'c' && s[i + 1] == 'p' && s[i + 2] == 'u'
  }

  predicate HasCpu(s: string) { exists i :: 0 <= i < |s| && CpuAt(s, i) }

  /** re.sub("cpu", "cpu" + tag, s) */
  function Rename(s: string, tag: string): string {
    if s == [] then []
    else if CpuAt(s, 0) then "cpu" + tag + Rename(s[3..], tag)
    else [s[0]] + Rename(s[1..], tag)
  }

  function Zeros(k: nat): (s: string)
    ensures |s| == k && AllDigits(s)
  {
    if k == 0 then [] else Zeros(k - 1) + ['0']
  }

  function Zfill(s: string, width: nat): string {
    if |s| >= width then s else Zeros(width - |s|) + s
  }

  /** What is put behind every "cpu" in the names of checkpoint i of n. */
  function Tag(i: nat, n: nat): string
    requires i < n
  {
    Zfill(ShowNat(i), |ShowNat(n - 1)|)
  }

  /** The pattern "workload.FdMap256$", whose dot stands for any one character. */
  predicate IsFdMap(s: string) {
    |s| >= 17 && s[|s| - 17..|s| - 9] == "workload" && s[|s| - 8..] == "FdMap256"
  }

  // ---------------------------------------------------------------- one section

  function Find(config: seq<Section>, name: string): Option<Section> {
    if config == [] then None
    else if config[0].name == name then Some(config[0])
    else Find(config[1..], name)
  }

  function Number(items: map<string, string>, key: string): Result<int> {
    if key !in items then Err(Missing)
    else if ParseInt(items[key]).None? then Err(BadNumber)
    else Ok(ParseInt(items[key]).value)
  }

  function Moved(items: map<string, string>, pagePtr: int): Result<map<string, string>> {
    if "paddr" !in items then Ok(items)
    else match Number(items, "paddr")
         case Err(e) => Err(e)
         case Ok(paddr) => Ok(items["paddr" := ShowInt(paddr + pagePtr * PAGE_SIZE)])
  }

  /** The section of a processor, as it is written. */
  function CpuSection(sec: Section, i: nat, n: nat, pagePtr: int): Result<Section>
    requires i < n
  {
    match Moved(sec.items, pagePtr)
    case Err(e) => Err(e)
    case Ok(items) =>
      Ok(Section(Rename(sec.name, Tag(i, n)), if IsFdMap(sec.name) then items["M5_pid" := ShowNat(i)] else items))
  }

  /** The configuration being put together, and the greatest tick seen. */
  datatype Draft = Draft(out: seq<Section>, maxTick: int)

  predicate Named(out: seq<Section>, name: string) { exists i :: 0 <= i < |out| && out[i].name == name }

  /** add_section and the set calls behind it. */
  function Add(d: Draft, sec: Section): Result<Draft> {
    if Named(d.out, sec.name) then Err(DuplicateSection) else Ok(d.(out := d.out + [sec]))
  }

  function Visit(d: Draft, sec: Section, i: nat, n: nat, pagePtr: int): Result<Draft>
    requires i < n
  {
    if HasCpu(sec.name) then
      if Named(d.out, Rename(sec.name, Tag(i, n))) then Err(DuplicateSection)
      else
        match CpuSection(sec, i, n, pagePtr)
        case Err(e) => Err(e)
        case Ok(s) => Add(d, s)
    else if sec.name == "system" then Ok(d)
    else if sec.name == "Globals" then
      match Number(sec.items, "curTick")
      case Err(e) => Err(e)
      case Ok(tick) => Ok(if tick > d.maxTick then d.(maxTick := tick) else d)
    else if i == n - 1 then Add(d, sec)
    else Ok(d)
  }

  function VisitAll(d: Draft, secs: seq<Section>, i: nat, n: nat, pagePtr: int): Result<Draft>
    requires i < n
  {
    if secs == [] then Ok(d)
    else
      match VisitAll(d, secs[..|secs| - 1], i, n, pagePtr)
      case Err(e) => Err(e)
      case Ok(d') => Visit(d', secs[|secs| - 1], i, n, pagePtr)
  }

  // ---------------------------------------------------------------- the whole run

  /** int(config.get("system", "pagePtr")) */
  function Pages(cpt: Checkpoint): Result<int> {
    match Find(cpt.config, "system")
    case None => Err(Missing)
    case Some(system) => Number(system.items, "pagePtr")
  }

  /** The bytes that so many reads of a page each take from the image. */
  function FirstPages(memory: seq<Byte>, pages: int): seq<Byte> {
    if pages * PAGE_SIZE <= 0 then [] else if |memory| <= pages * PAGE_SIZE then memory else memory[..pages * PAGE_SIZE]
  }

  datatype State = State(pagePtr: int, maxTick: int, written: seq<Section>, merged: seq<Section>, memory: seq<Byte>)

  function Step(st: State, cpt: Checkpoint, i: nat, n: nat): Result<State>
    requires i < n
  {
    match VisitAll(Draft([], st.maxTick), cpt.config, i, n, st.pagePtr)
    case Err(e) => Err(e)
    case Ok(d) =>
      match Pages(cpt)
      case Err(e) => Err(e)
      case Ok(pages) =>
        Ok(State(st.pagePtr + pages, d.maxTick, if i != n - 1 then st.written + d.out else st.written, d.out,
                 st.memory + FirstPages(cpt.memory, pages)))
  }

  function Steps(cpts: seq<Checkpoint>, k: nat): Result<State>
    requires k <= |cpts|
  {
    if k == 0 then Ok(State(0, 0, [], [], []))
    else
      match Steps(cpts, k - 1)
      case Err(e) => Err(e)
      case Ok(st) => Step(st, cpts[k - 1], k - 1, |cpts|)
  }

  function Repeat(b: Byte, k: nat): (s: seq<Byte>)
    ensures |s| == k && forall i :: 0 <= i < k ==> s[i] == b
  {
    seq(k, i => b)
  }

  /** A page of the filler: the character '0', not the byte 0. */
  const DUMMY: seq<Byte> := Repeat('0' as int, PAGE_SIZE)

  /** The pages that the padding loop adds to a file of so many pages. */
  function PadPages(pagePtr: int, memorySize: Option<int>): nat
    decreases if memorySize.Some? then memorySize.value - pagePtr * PAGE_SIZE else 0
  {
    if memorySize.Some? && pagePtr * PAGE_SIZE < memorySize.value then 1 + PadPages(pagePtr + 1, memorySize) else 0
  }

  function SetItem(config: seq<Section>, name: string, key: string, value: string): seq<Section> {
    if config == [] then []
    else
      var s := config[0];
      [if s.name == name then s.(items := s.items[key := value]) else s] + SetItem(config[1..], name, key, value)
  }

  function Finish(st: State, n: nat, memorySize: Option<int>): Result<Output> {
    var system := Section("system", map["pagePtr" := ShowInt(st.pagePtr), "nextPID" := ShowNat(n)]);
    var globals := Section("Globals", map["curTick" := ShowInt(st.maxTick)]);
    var pad := PadPages(st.pagePtr, memorySize);
    if Named(st.merged, "system") then Err(DuplicateSection)
    else if !Named(st.merged, STORE) then Err(Missing)
    else if Named(st.merged, "Globals") then Err(DuplicateSection)
    else
      Ok(Output(st.written + SetItem(st.merged + [system], STORE, "range_size", ShowInt((st.pagePtr + pad) * PAGE_SIZE))
                           + [globals],
                st.memory + Repeat('0' as int, pad * PAGE_SIZE), st.pagePtr + pad))
  }

  /** The memory size is not given by default, and nothing is smaller than Python's None. */
  function Aggregated(cpts: seq<Checkpoint>, memorySize: Option<int>): Result<Output>
    requires cpts != []
  {
    match Steps(cpts, |cpts|)
    case Err(e) => Err(e)
    case Ok(st) => Finish(st, |cpts|, memorySize)
  }

  // ---------------------------------------------------------------- the loops

  /** How many bytes the first so many pages have. */
  function PageBytes(memory: seq<Byte>, pages: nat): nat {
    if pages * PAGE_SIZE <= |memory| then pages * PAGE_SIZE else |memory|
  }

  /** One more page is read behind so many. */
  lemma PageMore(memory: seq<Byte>, pages: nat)
    ensures var k, m := PageBytes(memory, pages), PageBytes(memory, pages + 1);
            && k <= m <= |memory| && memory[..k] + Taken(memory[k..], PAGE_SIZE) == memory[..m]
            && Left(memory[k..], PAGE_SIZE) == memory[m..]
  {
    var k, m := PageBytes(memory, pages), PageBytes(memory, pages + 1);
    assert memory[..m] == memory[..k] + memory[k..m];
    assert Taken(memory[k..], PAGE_SIZE) == memory[k..m];
  }

  lemma FirstPagesAre(memory: seq<Byte>, pages: int, out: seq<Byte>)
    requires out <= memory && |out| == PageBytes(memory, if pages > 0 then pages else 0)
    ensures out == FirstPages(memory, pages)
  {
  }

  method CopyPages(memory: seq<Byte>, pages: int) returns (out: seq<Byte>)
    ensures out == FirstPages(memory, pages)
  {
    assert PageBytes(memory, 0) == 0 && memory[..0] == [] && memory[0..] == memory;
    hide Taken, Left, FirstPages, PageBytes;
    var gf := new InFile(memory);
    out := [];
    var x := 0;
    while x < pages
      invariant gf.Valid() && 0 <= x <= if pages > 0 then pages else 0
      invariant PageBytes(memory, x) <= |memory| && out == memory[..PageBytes(memory, x)]
      invariant gf.Rest() == memory[PageBytes(memory, x)..]
    {
      PageMore(memory, x);
      var bytesRead := gf.Read(PAGE_SIZE);
      out := out + bytesRead;
      x := x + 1;
    }
    FirstPagesAre(memory, pages, out);
  }

  method VisitSections(maxTick: int, secs: seq<Section>, i: nat, n: nat, pagePtr: int) returns (r: Result<Draft>)
    requires i < n
    ensures r == VisitAll(Draft([], maxTick), secs, i, n, pagePtr)
  {
    hide Visit;
    var d := Draft([], maxTick);
    for k := 0 to |secs|
      invariant VisitAll(Draft([], maxTick), secs[..k], i, n, pagePtr) == Ok(d)
    {
      assert secs[..k + 1][..k] == secs[..k];
      var next := Visit(d, secs[k], i, n, pagePtr);
      if next.Err? {
        VisitFails(Draft([], maxTick), secs, k + 1, i, n, pagePtr);
        return next;
      }
      d := next.value;
    }
    assert secs[..|secs|] == secs;
    r := Ok(d);
  }

  lemma {:induction false} VisitFails(d: Draft, secs: seq<Section>, k: nat, i: nat, n: nat, pagePtr: int)
    requires k <= |secs| && i < n && VisitAll(d, secs[..k], i, n, pagePtr).Err?
    ensures VisitAll(d, secs, i, n, pagePtr) == VisitAll(d, secs[..k], i, n, pagePtr)
  {
    if k == |secs| {
      assert secs[..k] == secs;
    } else {
      assert secs[..|secs| - 1][..k] == secs[..k];
      VisitFails(d, secs[..|secs| - 1], k, i, n, pagePtr);
    }
  }

  method Pad(memory: seq<Byte>, pages: int, memorySize: Option<int>) returns (out: seq<Byte>, pagePtr: int)
    ensures pagePtr == pages + PadPages(pages, memorySize)
    ensures out == memory + Repeat('0' as int, PadPages(pages, memorySize) * PAGE_SIZE)
  {
    pagePtr, out := pages, memory;
    var fileSize := pagePtr * 4 * 1024;
    ghost var added := 0;
    while memorySize.Some? && fileSize < memorySize.value
      invariant added >= 0 && pagePtr == pages + added && fileSize == pagePtr * PAGE_SIZE
      invariant added + PadPages(pagePtr, memorySize) == PadPages(pages, memorySize)
      invariant out == memory + Repeat('0' as int, added * PAGE_SIZE)
      decreases if memorySize.Some? then memorySize.value - fileSize else 0
    {
      out := out + DUMMY;
      fileSize := fileSize + 4 * 1024;
      pagePtr := pagePtr + 1;
      added := added + 1;
    }
  }

  method Aggregate(cpts: seq<Checkpoint>, memorySize: Option<int>) returns (r: Result<Output>)
    requires cpts != []
    ensures r == Aggregated(cpts, memorySize)
  {
    hide VisitAll, Pages, FirstPages, PadPages, ShowNat, ShowInt, SetItem;
    var st := State(0, 0, [], [], []);
    for i := 0 to |cpts|
      invariant Steps(cpts, i) == Ok(st)
    {
      var d := VisitSections(st.maxTick, cpts[i].config, i, |cpts|, st.pagePtr);
      var pages := Pages(cpts[i]);
      if d.Err? || pages.Err? {
        StepsFail(cpts, i + 1, |cpts|);
        return Err(if d.Err? then d.error else pages.error);
      }
      var bytes := CopyPages(cpts[i].memory, pages.value);
      st := State(st.pagePtr + pages.value, d.value.maxTick,
                  if i != |cpts| - 1 then st.written + d.value.out else st.written, d.value.out, st.memory + bytes);
    }
    if Named(st.merged, "system") {
      return Err(DuplicateSection);
    }
    var system := Section("system", map["pagePtr" := ShowInt(st.pagePtr), "nextPID" := ShowNat(|cpts|)]);
    var memory, pagePtr := Pad(st.memory, st.pagePtr, memorySize);
    r := Close(st, system, memory, pagePtr);
  }

  /** The last steps: the size of the memory and the greatest tick. */
  method Close(st: State, system: Section, memory: seq<Byte>, pagePtr: int) returns (r: Result<Output>)
    requires system.name == "system" && !Named(st.merged, "system")
    ensures r == if !Named(st.merged, STORE) then Err(Missing)
                 else if Named(st.merged, "Globals") then Err(DuplicateSection)
                 else Ok(Output(st.written
                                  + SetItem(st.merged + [system], STORE, "range_size", ShowInt(pagePtr * PAGE_SIZE))
                                  + [Section("Globals", map["curTick" := ShowInt(st.maxTick)])], memory, pagePtr))
  {
    if !Named(st.merged, STORE) {
      return Err(Missing);
    }
    var merged := SetItem(st.merged + [system], STORE, "range_size", ShowInt(pagePtr * 4 * 1024));
    if Named(st.merged, "Globals") {
      return Err(DuplicateSection);
    }
    var globals := Section("Globals", map["curTick" := ShowInt(st.maxTick)]);
    assert st.written + (merged + [globals]) == st.written + merged + [globals];
    merged := merged + [globals];
    r := Ok(Output(st.written + merged, memory, pagePtr));
  }

  lemma {:induction false} StepsFail(cpts: seq<Checkpoint>, k: nat, m: nat)
    requires k <= m <= |cpts| && Steps(cpts, k).Err?
    ensures Steps(cpts, m) == Steps(cpts, k)
  {
    hide Step;
    if k < m { StepsFail(cpts, k, m - 1); }
  }
}
