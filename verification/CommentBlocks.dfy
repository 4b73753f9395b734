/** Finding the comment blocks that may hold a copyright notice
    (gem5/util/find_copyrights.py): a scanner over the lines of a file, and the trimming of the
    list of authors at the end of a block. */
module CommentBlocks {
  import opened Text

  // ---------------------------------------------------------------- patterns

  predicate At(s: string, p: string, i: nat) { i + |p| <= |s| && s[i..i + |p|] == p }

  /** The first place from i on where p stands in s: re.search of a plain text. */
  function Search(s: string, p: string, i: nat): (r: Option<nat>)
    ensures r.Some? ==> i <= r.value && At(s, p, r.value)
    ensures forall j :: i <= j < (if r.Some? then r.value else |s| + 1) ==> !At(s, p, j)
    decreases |s| + 1 - i
  {
    if i + |p| > |s| then None else if At(s, p, i) then Some(i) else Search(s, p, i + 1)
  }

  predicate Has(s: string, p: string) { Search(s, p, 0).Some? }

  predicate Blank(s: string) { Strip(s) == [] }

  /** -*- mode: ... -*- */
  predicate ModeLine(s: string) {
    exists i, j, k :: 0 <= i <= j <= k <= |s| && ModeAt(s, i, j, k)
  }

  predicate ModeAt(s: string, i: nat, j: nat, k: nat) {
    && i + 3 <= j && j + 5 <= k <= |s| && At(s, "-*-", i) && At(s, "mode:", j) && At(s, "-*-", k)
    && (forall x :: i + 3 <= x < j ==> s[x] == ' ') && Without('\n', s[j..k])
  }

  predicate ShellComment(s: string) { At(StripLeft(s), "#", 0) }

  predicate LispComment(s: string) { Has(s, ";") }

  // ---------------------------------------------------------------- states

  datatype Block = Block(first: nat, last: nat)

  datatype Mode = NoMode | CPP | C

  datatype Progress = Running | Returned | AssertionFailed

  datatype Scan = Scan(blocks: seq<Block>, start: Option<nat>, mode: Mode, progress: Progress)

  const FRESH: Scan := Scan([], None, NoMode, Running)

  // ---------------------------------------------------------------- comments that run to the end of the line

  /** One turn for the languages with one kind of comment, and no way to tell a comment from a
      line with a comment behind code. */
  function LineTurn(st: Scan, i: nat, skipped: bool, comment: bool, blank: bool): Scan {
    if st.progress != Running || skipped then st
    else if comment then (if st.start.None? then st.(start := Some(i)) else st)
    else if st.start.None? then (if blank then st else st.(progress := Returned))
    else st.(blocks := st.blocks + [Block(st.start.value, if i > 0 then i - 1 else 0)], start := None)
  }

  /** What a scan makes of a line: whether it is passed over, a comment, or blank. */
  datatype Kind = Kind(skipped: bool, comment: bool, blank: bool)

  function LineScan(kinds: seq<Kind>): Scan {
    if kinds == [] then FRESH
    else
      var n := |kinds| - 1;
      LineTurn(LineScan(kinds[..n]), n, kinds[n].skipped, kinds[n].comment, kinds[n].blank)
  }

  function ShellKind(s: string, i: nat): Kind {
    Kind(i == 0 && (At(s, "#!", 0) || ModeLine(s)), ShellComment(s), Blank(s))
  }

  function LispKind(s: string, i: nat): Kind {
    Kind(i == 0 && ModeLine(s), LispComment(s), Blank(s))
  }

  function Kinds(lines: seq<string>, lisp: bool): (kinds: seq<Kind>)
    ensures |kinds| == |lines|
  {
    seq(|lines|, i requires 0 <= i < |lines| => if lisp then LispKind(lines[i], i) else ShellKind(lines[i], i))
  }

  // ---------------------------------------------------------------- the two kinds of C++ comment

  /** Only blanks before the first "//". */
  predicate SlashesFirst(s: string) {
    var m := Search(s, "//", 0);
    m.Some? && Blank(s[..m.value])
  }

  predicate StartsNotice(s: string) {
    var m := Search(s, "//", 0);
    m.Some? && At(StripLeft(s[m.value + 2..]), "Copyright", 0)
  }

  function CTurn(st: Scan, i: nat, line: string): Scan {
    if st.progress != Running || (i == 0 && ModeLine(line)) then st
    else if st.mode == C then
      if st.start.None? then st.(progress := AssertionFailed)
      else if Has(line, "*/") then st.(blocks := st.blocks + [Block(st.start.value, i)], mode := NoMode)
      else st
    else if Has(line, "//") then
      if Has(line, "/*") then st.(progress := AssertionFailed)
      else if !SlashesFirst(line) then st.(progress := Returned)
      else if st.mode == NoMode then st.(mode := CPP, start := Some(i))
      else if StartsNotice(line) && st.start.Some? && i > 0 then
        st.(blocks := st.blocks + [Block(st.start.value, i - 1)], start := Some(i))
      else st
    else if st.mode == CPP then
      if st.start.None? || i == 0 then st.(progress := AssertionFailed)
      else if Blank(line) then st
      else
        var closed := st.(blocks := st.blocks + [Block(st.start.value, i - 1)], mode := NoMode);
        if Has(line, "/*") then closed.(mode := C, start := Some(i)) else closed.(progress := Returned)
    else if Has(line, "/*") then st.(mode := C, start := Some(i))
    else if Blank(line) then st
    else st.(progress := Returned)
  }

  function CScan(lines: seq<string>): Scan {
    if lines == [] then FRESH else CTurn(CScan(lines[..|lines| - 1]), |lines| - 1, lines[|lines| - 1])
  }

  // ---------------------------------------------------------------- the generator

  datatype Language = Shell | Lisp | CLike | Unknown

  datatype Ending = Done | AssertionError | AttributeError

  function Found(lines: seq<string>, lang: Language): (seq<Block>, Ending) {
    if lang == Unknown then ([], AttributeError)
    else
      var st := if lang == CLike then CScan(lines) else LineScan(Kinds(lines, lang == Lisp));
      (st.blocks, if st.progress == AssertionFailed then AssertionError else Done)
  }

  method LineBlocks(lines: seq<string>, lisp: bool) returns (blocks: seq<Block>)
    ensures blocks == LineScan(Kinds(lines, lisp)).blocks
    ensures LineScan(Kinds(lines, lisp)).progress != AssertionFailed
  {
    hide ShellKind, LispKind;
    ghost var kinds := Kinds(lines, lisp);
    var start: Option<nat> := None;
    blocks := [];
    for i := 0 to |lines|
      invariant LineScan(kinds[..i]) == Scan(blocks, start, NoMode, Running)
      invariant start.Some? ==> start.value < i
    {
      LineScanNext(kinds, i);
      var kind := if lisp then LispKind(lines[i], i) else ShellKind(lines[i], i);
      if kind.skipped {
        continue;
      }
      if kind.comment {
        if start.None? {
          start := Some(i);
        }
      } else if start.None? {
        if !kind.blank {
          LineScanEnds(kinds, i + 1);
          return;
        }
      } else {
        blocks := blocks + [Block(start.value, i - 1)];
        start := None;
      }
    }
    assert kinds[..|lines|] == kinds;
  }

  lemma LineScanNext(kinds: seq<Kind>, n: nat)
    requires n < |kinds|
    ensures LineScan(kinds[..n + 1])
         == LineTurn(LineScan(kinds[..n]), n, kinds[n].skipped, kinds[n].comment, kinds[n].blank)
  {
    assert kinds[..n + 1][..n] == kinds[..n];
  }

  lemma {:induction false} LineScanEnds(kinds: seq<Kind>, n: nat)
    requires n <= |kinds| && LineScan(kinds[..n]).progress != Running
    ensures LineScan(kinds) == LineScan(kinds[..n])
  {
    if n == |kinds| {
      assert kinds[..n] == kinds;
    } else {
      assert kinds[..|kinds| - 1][..n] == kinds[..n];
      LineScanEnds(kinds[..|kinds| - 1], n);
    }
  }

  method CBlocks(lines: seq<string>) returns (blocks: seq<Block>, failed: bool)
    ensures blocks == CScan(lines).blocks && failed == CScan(lines).progress.AssertionFailed?
    ensures failed ==> exists i :: 0 <= i < |lines| && Has(lines[i], "//") && Has(lines[i], "/*")
  {
    hide CTurn, Has;
    var mode, start: Option<nat> := NoMode, None;
    var progress := Running;
    blocks := [];
    for i := 0 to |lines|
      invariant CScan(lines[..i]) == Scan(blocks, start, mode, progress) && progress == Running
      invariant mode != NoMode ==> start.Some? && start.value < i
    {
      CScanNext(lines, i);
      blocks, start, mode, progress := CLine(blocks, start, mode, i, lines[i]);
      if progress != Running {
        CScanEnds(lines, i + 1);
        return blocks, progress == AssertionFailed;
      }
    }
    assert lines[..|lines|] == lines;
    failed := false;
  }

  /** The body of the loop: a return or a failing assertion ends it. */
  method CLine(found: seq<Block>, since: Option<nat>, before: Mode, i: nat, line: string)
    returns (blocks: seq<Block>, start: Option<nat>, mode: Mode, progress: Progress)
    requires before != NoMode ==> since.Some? && since.value < i
    ensures Scan(blocks, start, mode, progress) == CTurn(Scan(found, since, before, Running), i, line)
    ensures mode != NoMode ==> start.Some? && start.value <= i
    ensures progress == AssertionFailed ==> Has(line, "//") && Has(line, "/*")
  {
    hide Search, ModeLine, Blank, StripLeft;
    blocks, start, mode, progress := found, since, before, Running;
    if i == 0 && ModeLine(line) {
      return;
    }
    if mode == C {
      assert start.Some?;                      // the assertion of the source
      if Has(line, "*/") {
        blocks := blocks + [Block(start.value, i)];
        mode := NoMode;
      }
      return;
    }
    var cppMatch, cMatch := Search(line, "//", 0), Has(line, "/*");
    if cppMatch.Some? {
      if cMatch {
        progress := AssertionFailed;
        return;
      }
      if !Blank(line[..cppMatch.value]) {
        progress := Returned;
        return;
      }
      if mode == NoMode {
        mode, start := CPP, Some(i);
      } else {
        var text := StripLeft(line[cppMatch.value + 2..]);
        if At(text, "Copyright", 0) {
          blocks := blocks + [Block(start.value, i - 1)];
          start := Some(i);
        }
      }
      return;
    } else if mode == CPP {
      assert start.Some?;
      if Blank(line) {
        return;
      }
      blocks := blocks + [Block(start.value, i - 1)];
      mode := NoMode;
      if !cMatch {
        progress := Returned;
        return;
      }
    }
    if cMatch {
      assert mode == NoMode;
      mode, start := C, Some(i);
    }
    if mode == NoMode && !Blank(line) {
      progress := Returned;
    }
  }

  lemma CScanNext(lines: seq<string>, n: nat)
    requires n < |lines|
    ensures CScan(lines[..n + 1]) == CTurn(CScan(lines[..n]), n, lines[n])
  {
    assert lines[..n + 1][..n] == lines[..n];
  }

  lemma {:induction false} CScanEnds(lines: seq<string>, n: nat)
    requires n <= |lines| && CScan(lines[..n]).progress != Running
    ensures CScan(lines) == CScan(lines[..n])
  {
    if n == |lines| {
      assert lines[..n] == lines;
    } else {
      assert lines[..|lines| - 1][..n] == lines[..n];
      CScanEnds(lines[..|lines| - 1], n);
    }
  }

  /** The generator run to its end: what it yields, and how it stops. */
  method FindCopyrightBlock(lines: seq<string>, lang: Language) returns (blocks: seq<Block>, ending: Ending)
    ensures (blocks, ending) == Found(lines, lang)
  {
    hide CScan, LineScan;
    if lang == Unknown {
      return [], AttributeError;
    }
    if lang == CLike {
      var failed;
      blocks, failed := CBlocks(lines);
      ending := if failed then AssertionError else Done;
    } else {
      blocks := LineBlocks(lines, lang == Lisp);
      ending := Done;
    }
  }

  // ---------------------------------------------------------------- trimming the authors

  /** What the search for authors needs to know of a line. */
  datatype Patterns = Patterns(authors: string -> bool, more: string -> bool)

  /** The first line from j to last that is blank or has text behind "//"; the block ends there or
      before it. */
  function EndOfAuthors(lines: seq<string>, j: nat, last: nat): nat
    requires 0 < j && last < |lines|
    decreases last + 1 - j
  {
    if j > last then last
    else
      var line := Strip(lines[j]);
      if line == [] then j
      else if At(line, "//", 0) && StripLeft(line[2..]) != [] then j - 1
      else EndOfAuthors(lines, j + 1, last)
  }

  function TrimFrom(p: Patterns, lines: seq<string>, i: nat, last: nat, found: bool): nat
    requires last < |lines| && (found ==> i > 0)
    decreases last + 1 - i
  {
    if i > last then last
    else if !found then TrimFrom(p, lines, i + 1, last, p.authors(lines[i]))
    else if p.more(lines[i]) then TrimFrom(p, lines, i + 1, last, true)
    else EndOfAuthors(lines, i, last)
  }

  /** The new end of a block. */
  method TrimAuthors(p: Patterns, lines: seq<string>, b: Block) returns (end: nat)
    requires b.last < |lines|
    ensures end == TrimFrom(p, lines, b.first, b.last, false)
  {
    var found := false;
    end := b.last;
    var i := b.first;
    while i <= b.last
      invariant found ==> i > 0
      invariant end == b.last
      invariant TrimFrom(p, lines, b.first, b.last, false) == TrimFrom(p, lines, i, b.last, found)
    {
      if !found {
        found := p.authors(lines[i]);
      } else if !p.more(lines[i]) {
        var j := i;
        while j <= b.last
          invariant j > 0 && end == b.last
          invariant EndOfAuthors(lines, i, b.last) == EndOfAuthors(lines, j, b.last)
        {
          var line := Strip(lines[j]);
          if line == [] {
            return j;
          }
          if At(line, "//", 0) {
            line := StripLeft(line[2..]);
            if line != [] {
              return j - 1;
            }
          }
          j := j + 1;
        }
        return;
      }
      i := i + 1;
    }
  }
}
