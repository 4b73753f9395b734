/** What the comment scanner finds: for comments of one kind, exactly the runs of comment lines;
    for C++, a tiling of the front of the file by blocks and blank lines. */
module CommentBlocksProofs {
  import opened Text
  import opened CommentBlocks

  // ---------------------------------------------------------------- one kind of comment

  predicate Comment(kinds: seq<Kind>, i: nat)
    requires i < |kinds|
  {
    !kinds[i].skipped && kinds[i].comment
  }

  /** A line of code that does not follow a comment directly: nothing is read from here on. */
  predicate Stops(kinds: seq<Kind>, t: nat)
    requires t < |kinds|
  {
    && !kinds[t].skipped && !kinds[t].comment && !kinds[t].blank
    && (t > 0 ==> !Comment(kinds, t - 1))
  }

  /** Only the first line of a file can be passed over. */
  ghost predicate SkipsFirstOnly(kinds: seq<Kind>) { forall i :: 0 < i < |kinds| ==> !kinds[i].skipped }

  /** A longest run of comment lines with another line behind it, before anything stops the scan. */
  ghost predicate IsRun(kinds: seq<Kind>, b: Block) {
    && b.first <= b.last && b.last + 1 < |kinds|
    && (forall i :: b.first <= i <= b.last ==> Comment(kinds, i))
    && !Comment(kinds, b.last + 1)
    && (b.first > 0 ==> !Comment(kinds, b.first - 1))
    && (forall t :: 0 <= t < b.first ==> !Stops(kinds, t))
  }

  ghost predicate InOrder(blocks: seq<Block>, n: nat) {
    && (forall k :: 0 <= k < |blocks| ==> blocks[k].first <= blocks[k].last < n)
    && (forall k, l :: 0 <= k < l < |blocks| ==> blocks[k].last < blocks[l].first)
  }

  /** After n lines: the runs that have ended, and where an open one starts. */
  ghost predicate LineInv(kinds: seq<Kind>, n: nat, st: Scan)
    requires n <= |kinds|
  {
    && InOrder(st.blocks, match st.start case Some(s) => s case None => n)
    && (forall b :: b in st.blocks <==> IsRun(kinds, b) && b.last + 1 < n)
    && (st.start.Some? ==>
          && st.start.value < n && st.progress == Running
          && (forall i :: st.start.value <= i < n ==> Comment(kinds, i))
          && (st.start.value > 0 ==> !Comment(kinds, st.start.value - 1)))
    && st.progress != AssertionFailed
    && (st.progress == Running ==>
          (forall t :: 0 <= t < n ==> !Stops(kinds, t)) && (n > 0 && st.start.None? ==> !Comment(kinds, n - 1)))
    && (st.progress == Returned ==> exists t :: 0 <= t < n && Stops(kinds, t))
  }

  lemma LineTurnKeepsInv(kinds: seq<Kind>, n: nat, st: Scan)
    requires n < |kinds| && SkipsFirstOnly(kinds) && LineInv(kinds, n, st)
    ensures LineInv(kinds, n + 1, LineTurn(st, n, kinds[n].skipped, kinds[n].comment, kinds[n].blank))
  {
    hide IsRun;
    var st' := LineTurn(st, n, kinds[n].skipped, kinds[n].comment, kinds[n].blank);
    forall b ensures b in st'.blocks <==> IsRun(kinds, b) && b.last + 1 < n + 1 {
      RunsThatEnd(kinds, n, st, b);
    }
    if st.progress == Running && st'.progress == Returned {
      assert Stops(kinds, n);
    }
  }

  /** The only run that can end with line n is the open one. */
  lemma RunsThatEnd(kinds: seq<Kind>, n: nat, st: Scan, b: Block)
    requires n < |kinds| && SkipsFirstOnly(kinds) && LineInv(kinds, n, st)
    ensures var st' := LineTurn(st, n, kinds[n].skipped, kinds[n].comment, kinds[n].blank);
            b in st'.blocks <==> IsRun(kinds, b) && b.last + 1 < n + 1
  {
    if b.last + 1 == n && IsRun(kinds, b) {
      RunsDoNotStop(kinds, b);
      if st.start.Some? { OpenRunStart(kinds, n, st.start.value, b); }
    }
  }

  lemma RunsDoNotStop(kinds: seq<Kind>, b: Block)
    requires IsRun(kinds, b)
    ensures Comment(kinds, b.last) && forall t :: 0 <= t <= b.last ==> !Stops(kinds, t)
  {
    forall t | 0 <= t <= b.last ensures !Stops(kinds, t) {
      if t >= b.first { assert Comment(kinds, t); }
    }
  }

  lemma OpenRunStart(kinds: seq<Kind>, n: nat, s: nat, b: Block)
    requires n <= |kinds| && s < n && (forall i :: s <= i < n ==> Comment(kinds, i))
    requires s > 0 ==> !Comment(kinds, s - 1)
    requires IsRun(kinds, b) && b.last + 1 == n
    ensures s == b.first
  {
  }

  lemma {:induction false} LineScanKeepsInv(kinds: seq<Kind>, n: nat)
    requires n <= |kinds| && SkipsFirstOnly(kinds)
    ensures LineInv(kinds, n, LineScan(kinds[..n]))
  {
    if n > 0 {
      LineScanKeepsInv(kinds, n - 1);
      LineScanNext(kinds, n - 1);
      LineTurnKeepsInv(kinds, n - 1, LineScan(kinds[..n - 1]));
    }
  }

  /** The main result for '#' and ';': the blocks are exactly the runs of comment lines, in order,
      that are followed by another line and not preceded by code that stops the scan. */
  lemma BlocksAreRuns(lines: seq<string>, lang: Language)
    requires lang == Shell || lang == Lisp
    ensures var (blocks, ending) := Found(lines, lang);
            && ending == Done && InOrder(blocks, |lines|)
            && forall b :: b in blocks <==> IsRun(Kinds(lines, lang == Lisp), b)
  {
    hide ModeLine, ShellComment, LispComment, Blank, IsRun;
    var kinds := Kinds(lines, lang == Lisp);
    LineScanKeepsInv(kinds, |lines|);
    assert kinds[..|lines|] == kinds;
    forall b | IsRun(kinds, b) ensures b.last + 1 < |lines| {
      RunEnds(kinds, b);
    }
  }

  lemma RunEnds(kinds: seq<Kind>, b: Block)
    requires IsRun(kinds, b)
    ensures b.last + 1 < |kinds|
  {
  }

  // ---------------------------------------------------------------- by the characters

  lemma {:induction false} StripLeftIs(s: string)
    ensures var k := |s| - |StripLeft(s)|;
            && 0 <= k && s[k..] == StripLeft(s) && forall i :: 0 <= i < k ==> IsSpace(s[i])
    ensures StripLeft(s) != [] ==> !IsSpace(StripLeft(s)[0])
  {
    if s != [] && IsSpace(s[0]) {
      StripLeftIs(s[1..]);
      var k := |s[1..]| - |StripLeft(s[1..])|;
      assert s[k + 1..] == s[1..][k..];
      forall i | 0 <= i < k + 1 ensures IsSpace(s[i]) {
        assert i > 0 ==> s[i] == s[1..][i - 1];
      }
    }
  }

  lemma {:induction false} StripRightNothing(s: string, i: nat)
    requires i < |s| && !IsSpace(s[i])
    ensures StripRight(s) != []
  {
    if IsSpace(s[|s| - 1]) {
      StripRightNothing(s[..|s| - 1], i);
    }
  }

  /** A line is blank exactly if it has blanks only. */
  lemma BlankIff(s: string)
    ensures Blank(s) <==> forall i :: 0 <= i < |s| ==> IsSpace(s[i])
  {
    StripLeftIs(s);
    var t := StripLeft(s);
    var k := |s| - |t|;
    if t != [] {
      assert s[k] == s[k..][0] == t[0];
      StripRightNothing(t, 0);
    }
  }

  /** The line is a shell comment: its first character that is not blank is '#'. The first line is
      none if it starts with "#!" or sets the mode of an editor. */
  ghost predicate HashLine(lines: seq<string>, i: nat)
    requires i < |lines|
  {
    var s := lines[i];
    && (exists k :: 0 <= k < |s| && s[k] == '#' && forall j :: 0 <= j < k ==> IsSpace(s[j]))
    && !(i == 0 && ((|s| >= 2 && s[0] == '#' && s[1] == '!') || ModeLine(s)))
  }

  /** The line has a ';' anywhere, and is not a first line that sets the mode of an editor. */
  ghost predicate SemicolonLine(lines: seq<string>, i: nat)
    requires i < |lines|
  {
    (exists k :: 0 <= k < |lines[i]| && lines[i][k] == ';') && !(i == 0 && ModeLine(lines[i]))
  }

  ghost predicate CommentLine(lines: seq<string>, lang: Language, i: nat)
    requires i < |lines|
  {
    if lang == Lisp then SemicolonLine(lines, i) else HashLine(lines, i)
  }

  /** The first line is passed over even when it is no comment. */
  ghost predicate PassedOver(lines: seq<string>, lang: Language, i: nat)
    requires i < |lines|
  {
    var s := lines[i];
    i == 0 && (ModeLine(s) || (lang == Shell && |s| >= 2 && s[0] == '#' && s[1] == '!'))
  }

  /** A line of code that does not follow a comment directly. */
  ghost predicate StopLine(lines: seq<string>, lang: Language, t: nat)
    requires t < |lines|
  {
    && !CommentLine(lines, lang, t) && !PassedOver(lines, lang, t)
    && (exists k :: 0 <= k < |lines[t]| && !IsSpace(lines[t][k]))
    && (t > 0 ==> !CommentLine(lines, lang, t - 1))
  }

  lemma HashMeans(s: string)
    ensures ShellComment(s) <==> exists k :: 0 <= k < |s| && s[k] == '#' && forall j :: 0 <= j < k ==> IsSpace(s[j])
  {
    if ShellComment(s) {
      HashAt(s);
    }
    if k :| 0 <= k < |s| && s[k] == '#' && forall j :: 0 <= j < k ==> IsSpace(s[j]) {
      hide StripLeft;
      assert s == s[..k] + s[k..] && s[k..][0] == '#' && Spaces(s[..k]);
      StripLeftBlanks(s[..k], s[k..]);
      assert s[k..][0..1] == ['#'];
    }
  }

  lemma HashAt(s: string)
    requires ShellComment(s)
    ensures var k := |s| - |StripLeft(s)|;
            0 <= k < |s| && s[k] == '#' && forall j :: 0 <= j < k ==> IsSpace(s[j])
  {
    StripLeftIs(s);
    hide StripLeft;
    var t := StripLeft(s);
    assert t[0] == t[0..1][0] == '#';
    assert s[|s| - |t|] == s[|s| - |t|..][0];
  }

  lemma SemicolonMeans(s: string)
    ensures LispComment(s) <==> exists k :: 0 <= k < |s| && s[k] == ';'
  {
    forall k: nat | k < |s| ensures At(s, ";", k) <==> s[k] == ';' {
      assert s[k..k + 1] == [s[k]];
    }
  }

  lemma KindMeans(lines: seq<string>, lang: Language, i: nat)
    requires (lang == Shell || lang == Lisp) && i < |lines|
    ensures var kind := Kinds(lines, lang == Lisp)[i];
            && (kind.skipped <==> PassedOver(lines, lang, i))
            && (!kind.skipped && kind.comment <==> CommentLine(lines, lang, i))
            && (kind.blank <==> forall k :: 0 <= k < |lines[i]| ==> IsSpace(lines[i][k]))
  {
    var s := lines[i];
    HashMeans(s);
    SemicolonMeans(s);
    BlankIff(s);
    assert At(s, "#!", 0) <==> |s| >= 2 && s[0] == '#' && s[1] == '!' by {
      assert |s| >= 2 ==> s[0..2] == [s[0], s[1]];
    }
  }

  lemma StopMeans(lines: seq<string>, lang: Language, t: nat)
    requires (lang == Shell || lang == Lisp) && t < |lines|
    ensures Stops(Kinds(lines, lang == Lisp), t) <==> StopLine(lines, lang, t)
  {
    KindMeans(lines, lang, t);
    if t > 0 { KindMeans(lines, lang, t - 1); }
    hide CommentLine, PassedOver, Kinds;
  }

  /** The main result for '#' and ';' in terms of the text. */
  lemma BlocksAreRunsOfText(lines: seq<string>, lang: Language, b: Block)
    requires lang == Shell || lang == Lisp
    ensures b in Found(lines, lang).0 <==>
            && b.first <= b.last && b.last + 1 < |lines|
            && (forall i :: b.first <= i <= b.last ==> CommentLine(lines, lang, i))
            && !CommentLine(lines, lang, b.last + 1)
            && (b.first > 0 ==> !CommentLine(lines, lang, b.first - 1))
            && (forall t :: 0 <= t < b.first ==> !StopLine(lines, lang, t))
  {
    hide CommentLine, StopLine, Kinds, Found, Comment, Stops;
    var kinds := Kinds(lines, lang == Lisp);
    BlocksAreRuns(lines, lang);
    forall i: nat | i < |lines| ensures Comment(kinds, i) <==> CommentLine(lines, lang, i) {
      CommentMeans(lines, lang, i);
    }
    forall t: nat | t < |lines| ensures Stops(kinds, t) <==> StopLine(lines, lang, t) {
      StopMeans(lines, lang, t);
    }
  }

  lemma CommentMeans(lines: seq<string>, lang: Language, i: nat)
    requires (lang == Shell || lang == Lisp) && i < |lines|
    ensures Comment(Kinds(lines, lang == Lisp), i) <==> CommentLine(lines, lang, i)
  {
    KindMeans(lines, lang, i);
    hide CommentLine, PassedOver, Kinds;
  }

  // ---------------------------------------------------------------- patterns by their parts

  /** A line sets the mode of an editor exactly if it has these parts, with blanks between the first
      two, and no line break behind "mode:". */
  lemma ModeLineHas(a: string, blanks: string, mode: string, b: string)
    requires (forall x :: x in blanks ==> x == ' ') && '\n' !in mode
    ensures ModeLine(a + "-*-" + blanks + "mode:" + mode + "-*-" + b)
  {
    var s := a + "-*-" + blanks + "mode:" + mode + "-*-" + b;
    var i, j := |a|, |a| + 3 + |blanks|;
    var k := j + 5 + |mode|;
    assert At(s, "-*-", i) && At(s, "mode:", j) && At(s, "-*-", k);
    forall x | i + 3 <= x < j ensures s[x] == ' ' {
      assert s[x] == blanks[x - i - 3] && blanks[x - i - 3] in blanks;
    }
    forall x | 0 <= x < |s[j..k]| ensures s[j..k][x] != '\n' {
      if x >= 5 { assert s[j..k][x] == mode[x - 5]; } else { assert s[j..k][x] == "mode:"[x]; }
    }
    assert ModeAt(s, i, j, k);
  }

  lemma ModeLineParts(s: string) returns (a: string, blanks: string, mode: string, b: string)
    requires ModeLine(s)
    ensures s == a + "-*-" + blanks + "mode:" + mode + "-*-" + b
    ensures (forall x :: x in blanks ==> x == ' ') && '\n' !in mode
  {
    var i: nat, j: nat, k: nat :| i <= j <= k <= |s| && ModeAt(s, i, j, k);
    hide ModeAt, ModeLine;
    a, blanks, mode, b := PartsAt(s, i, j, k);
  }

  lemma PartsAt(s: string, i: nat, j: nat, k: nat) returns (a: string, blanks: string, mode: string, b: string)
    requires ModeAt(s, i, j, k)
    ensures s == a + "-*-" + blanks + "mode:" + mode + "-*-" + b
    ensures (forall x :: x in blanks ==> x == ' ') && '\n' !in mode
  {
    assert i + 3 <= j && j + 5 <= k && At(s, "-*-", k);
    a, blanks, mode, b := s[..i], s[i + 3..j], s[j + 5..k], s[k + 3..];
    SevenParts(s, i, j, k);
    NoBreakBehind(s[j..k], mode);
  }

  lemma SevenParts(s: string, i: nat, j: nat, k: nat)
    requires i + 3 <= j && j + 5 <= k && k + 3 <= |s|
    ensures s == s[..i] + s[i..i + 3] + s[i + 3..j] + s[j..j + 5] + s[j + 5..k] + s[k..k + 3] + s[k + 3..]
    ensures s[j..k][5..] == s[j + 5..k]
  {
    assert s[..i] + s[i..i + 3] == s[..i + 3];
    assert s[..i + 3] + s[i + 3..j] == s[..j];
    assert s[..j] + s[j..j + 5] == s[..j + 5];
    assert s[..j + 5] + s[j + 5..k] == s[..k];
    assert s[..k] + s[k..k + 3] == s[..k + 3];
  }

  lemma NoBreakBehind(t: string, mode: string)
    requires |t| >= 5 && Without('\n', t) && mode == t[5..]
    ensures '\n' !in mode
  {
    forall y | 0 <= y < |mode| ensures mode[y] != '\n' {
      assert t[y + 5] == mode[y];
    }
  }

  /** Code in front of the first "//", if there is any, is not blank. */
  lemma SlashesFirstMeans(s: string)
    ensures SlashesFirst(s) <==>
            exists blanks, rest :: s == blanks + "//" + rest && forall x :: x in blanks ==> IsSpace(x)
  {
    if SlashesFirst(s) {
      var m := Search(s, "//", 0).value;
      BlankIff(s[..m]);
      assert s == s[..m] + s[m..m + 2] + s[m + 2..];
      assert s == s[..m] + "//" + s[m + 2..];
    }
    if blanks, rest :| s == blanks + "//" + rest && forall x :: x in blanks ==> IsSpace(x) {
      var k := |blanks|;
      assert At(s, "//", k);
      var m := Search(s, "//", 0).value;
      assert m <= k;
      assert s[..m] == blanks[..m];
      BlankIff(s[..m]);
    }
  }

  /** Another notice starts exactly where "Copyright" comes behind the first "//" and blanks. */
  lemma StartsNoticeHas(before: string, blanks: string, rest: string)
    requires forall x :: x in blanks ==> IsSpace(x)
    requires forall k :: 0 <= k < |before| ==> !At(before + "//", "//", k)
    ensures StartsNotice(before + "//" + blanks + "Copyright" + rest)
  {
    var s, t := before + "//" + blanks + "Copyright" + rest, "Copyright" + rest;
    var m := |before|;
    assert At(s, "//", m);
    forall k: nat | k < m ensures !At(s, "//", k) {
      assert s[k..k + 2] == (before + "//")[k..k + 2];
      assert !At(before + "//", "//", k);
    }
    assert Search(s, "//", 0) == Some(m);
    assert s[m + 2..] == blanks + t;
    StripLeftBlanks(blanks, t);
    assert t[0..9] == "Copyright";
  }

  lemma StartsNoticeParts(s: string) returns (before: string, blanks: string, rest: string)
    requires StartsNotice(s)
    ensures s == before + "//" + blanks + "Copyright" + rest && forall x :: x in blanks ==> IsSpace(x)
    ensures forall k :: 0 <= k < |before| ==> !At(s, "//", k)
  {
    var m := Search(s, "//", 0).value;
    assert At(s, "//", m) && At(StripLeft(s[m + 2..]), "Copyright", 0);
    hide StripLeft, Search, StartsNotice, At;
    blanks, rest := NoticeText(s[m + 2..]);
    before := s[..m];
    AtDivides(s, "//", m);
    assert s == before + "//" + (blanks + "Copyright" + rest);
  }

  lemma AtDivides(s: string, p: string, m: nat)
    requires At(s, p, m)
    ensures s == s[..m] + p + s[m + |p|..]
  {
    assert s == s[..m] + s[m..m + |p|] + s[m + |p|..];
  }

  lemma NoticeText(u: string) returns (blanks: string, rest: string)
    requires At(StripLeft(u), "Copyright", 0)
    ensures u == blanks + "Copyright" + rest && forall x :: x in blanks ==> IsSpace(x)
  {
    var t := StripLeft(u);
    StripLeftIs(u);
    hide StripLeft;
    var n := |u| - |t|;
    blanks, rest := u[..n], t[9..];
    assert t == t[0..9] + rest;
    assert u == blanks + t;
    forall x | x in blanks ensures IsSpace(x) {
      var y :| 0 <= y < n && u[y] == x;
    }
  }

  // ---------------------------------------------------------------- C and C++

  /** Part of a "//" block: a comment line, or a blank line between or behind them. */
  predicate SlashLine(s: string) {
    if Has(s, "//") then SlashesFirst(s) && !Has(s, "/*") else Blank(s)
  }

  /** Only the first line can be passed over, as the mode line of an editor. */
  predicate Skipped(lines: seq<string>, x: nat)
    requires x < |lines|
  {
    x == 0 && ModeLine(lines[0])
  }

  /** Lines first to next - 1 as one "//" block. */
  ghost predicate SlashLines(lines: seq<string>, first: nat, next: nat)
    requires next <= |lines|
  {
    && first < next && Has(lines[first], "//") && !Skipped(lines, first)
    && (forall i :: first <= i < next ==> SlashLine(lines[i]))
    && (forall i :: first < i < next ==> !StartsNotice(lines[i]))
  }

  /** A line that ends the "//" block before it: the start of another notice, or a line without
      "//" that is not blank. Code with a "//" behind it ends the scan instead. */
  predicate Closes(s: string) {
    if Has(s, "//") then SlashLine(s) && StartsNotice(s) else !Blank(s)
  }

  ghost predicate SlashBlock(lines: seq<string>, b: Block) {
    b.last + 1 < |lines| && SlashLines(lines, b.first, b.last + 1) && Closes(lines[b.last + 1])
  }

  predicate Opener(lines: seq<string>, first: nat)
    requires first < |lines|
  {
    Has(lines[first], "/*") && !Has(lines[first], "//") && !Skipped(lines, first)
  }

  ghost predicate OpenComment(lines: seq<string>, first: nat, next: nat)
    requires next <= |lines|
  {
    first < next && Opener(lines, first) && forall i :: first < i < next ==> !Has(lines[i], "*/")
  }

  /** From a line that opens a comment to the next line, never the same one, that closes one. */
  ghost predicate StarBlock(lines: seq<string>, b: Block) {
    b.first < b.last < |lines| && OpenComment(lines, b.first, b.last) && Has(lines[b.last], "*/")
  }

  ghost predicate InSome(blocks: seq<Block>, x: int) {
    exists k :: 0 <= k < |blocks| && blocks[k].first <= x <= blocks[k].last
  }

  predicate Ignored(lines: seq<string>, x: nat)
    requires x < |lines|
  {
    Blank(lines[x]) || Skipped(lines, x)
  }

  /** The first n lines are the blocks, in order, and lines that do not matter. */
  ghost predicate Tiles(lines: seq<string>, blocks: seq<Block>, n: nat)
    requires n <= |lines|
  {
    && InOrder(blocks, n)
    && (forall k :: 0 <= k < |blocks| ==> SlashBlock(lines, blocks[k]) || StarBlock(lines, blocks[k]))
    && (forall x :: 0 <= x < n ==> InSome(blocks, x) || Ignored(lines, x))
  }

  lemma TilesBlock(lines: seq<string>, blocks: seq<Block>, b: Block)
    requires b.first <= b.last < |lines| && Tiles(lines, blocks, b.first)
    requires SlashBlock(lines, b) || StarBlock(lines, b)
    ensures Tiles(lines, blocks + [b], b.last + 1)
  {
    hide SlashBlock, StarBlock, Ignored;
    var more := blocks + [b];
    forall x | 0 <= x <= b.last ensures InSome(more, x) || Ignored(lines, x) {
      if x >= b.first {
        assert more[|blocks|] == b;
      } else if InSome(blocks, x) {
        var k :| 0 <= k < |blocks| && blocks[k].first <= x <= blocks[k].last;
        assert more[k] == blocks[k];
      }
    }
  }

  /** Where the scan stands after m lines: everything before n is tiled, and lines n to m - 1 are a
      block that is open. */
  ghost predicate CInv(lines: seq<string>, i: nat, st: Scan, n: nat, m: nat)
    requires i <= |lines|
  {
    && n <= m <= i && Tiles(lines, st.blocks, n)
    && match st.progress
       case Running =>
         m == i && (match st.mode
                    case NoMode => n == m
                    case CPP => st.start == Some(n) && SlashLines(lines, n, m)
                    case C => st.start == Some(n) && OpenComment(lines, n, m))
       case Returned =>
         && m < i && !Skipped(lines, m)
         && if Has(lines[m], "//") then !Has(lines[m], "/*") && !SlashesFirst(lines[m])
                                            && (n < m ==> SlashLines(lines, n, m))
            else n == m && !Blank(lines[m]) && !Has(lines[m], "/*")
       case AssertionFailed =>
         m < i && !Skipped(lines, m) && Has(lines[m], "//") && Has(lines[m], "/*")
           && (n < m ==> SlashLines(lines, n, m))
  }

  ghost predicate Stands(lines: seq<string>, i: nat, st: Scan)
    requires i <= |lines|
  {
    exists n: nat, m: nat :: CInv(lines, i, st, n, m)
  }

  lemma CTurnInComment(lines: seq<string>, i: nat, st: Scan, n: nat)
    requires i < |lines| && CInv(lines, i, st, n, i) && st.progress == Running && st.mode == C
    ensures Stands(lines, i + 1, CTurn(st, i, lines[i]))
  {
    hide Has, ModeLine, Tiles;
    var st' := CTurn(st, i, lines[i]);
    if Has(lines[i], "*/") {
      TilesBlock(lines, st.blocks, Block(n, i));
      assert CInv(lines, i + 1, st', i + 1, i + 1);
    } else {
      assert CInv(lines, i + 1, st', n, i + 1);
    }
  }

  lemma CTurnInSlashes(lines: seq<string>, i: nat, st: Scan, n: nat)
    requires i < |lines| && CInv(lines, i, st, n, i) && st.progress == Running && st.mode == CPP
    ensures Stands(lines, i + 1, CTurn(st, i, lines[i]))
  {
    hide Has, ModeLine, Tiles, SlashesFirst, StartsNotice, Blank;
    var st' := CTurn(st, i, lines[i]);
    var line := lines[i];
    if SlashLine(line) && !(Has(line, "//") && StartsNotice(line)) {
      assert !StartsNotice(line) by { NoticeHasSlashes(line); }
      assert SlashLines(lines, n, i + 1);
      assert CInv(lines, i + 1, st', n, i + 1);
    } else if Has(line, "//") && (Has(line, "/*") || !SlashesFirst(line)) {
      assert CInv(lines, i + 1, st', n, i);
    } else {
      TilesBlock(lines, st.blocks, Block(n, i - 1));
      if Has(line, "//") || Has(line, "/*") {
        assert CInv(lines, i + 1, st', i, i + 1);
      } else {
        assert CInv(lines, i + 1, st', i, i);
      }
    }
  }

  lemma NoticeHasSlashes(line: string)
    ensures StartsNotice(line) ==> Has(line, "//")
  {
  }

  lemma TilesIgnored(lines: seq<string>, blocks: seq<Block>, n: nat)
    requires n < |lines| && Tiles(lines, blocks, n) && Ignored(lines, n)
    ensures Tiles(lines, blocks, n + 1)
  {
  }

  lemma CTurnOutside(lines: seq<string>, i: nat, st: Scan)
    requires i < |lines| && CInv(lines, i, st, i, i) && st.progress == Running && st.mode == NoMode
    ensures Stands(lines, i + 1, CTurn(st, i, lines[i]))
  {
    hide Has, ModeLine, Tiles, SlashesFirst, StartsNotice, Blank;
    var st' := CTurn(st, i, lines[i]);
    var line := lines[i];
    if (i == 0 && ModeLine(line)) || (Blank(line) && !Has(line, "//") && !Has(line, "/*")) {
      TilesIgnored(lines, st.blocks, i);
      assert CInv(lines, i + 1, st', i + 1, i + 1);
    } else if Has(line, "//") && (Has(line, "/*") || !SlashesFirst(line)) {
      assert CInv(lines, i + 1, st', i, i);
    } else if Has(line, "//") || Has(line, "/*") {
      assert CInv(lines, i + 1, st', i, i + 1);
    } else {
      assert CInv(lines, i + 1, st', i, i);
    }
  }

  lemma CTurnStopped(lines: seq<string>, i: nat, st: Scan)
    requires i < |lines| && Stands(lines, i, st) && st.progress != Running
    ensures Stands(lines, i + 1, CTurn(st, i, lines[i]))
  {
    hide Has, ModeLine, Tiles, SlashesFirst, StartsNotice, Blank;
    var n: nat, m: nat :| CInv(lines, i, st, n, m);
    assert CInv(lines, i + 1, st, n, m);
  }

  lemma {:induction false} CScanStands(lines: seq<string>, i: nat)
    requires i <= |lines|
    ensures Stands(lines, i, CScan(lines[..i]))
  {
    hide CTurn, Has, ModeLine, SlashesFirst, StartsNotice, Blank;
    if i == 0 {
      assert CInv(lines, 0, CScan(lines[..0]), 0, 0);
    } else {
      CScanStands(lines, i - 1);
      CScanNext(lines, i - 1);
      var st := CScan(lines[..i - 1]);
      if st.progress != Running {
        CTurnStopped(lines, i - 1, st);
      } else {
        var n: nat, m: nat :| CInv(lines, i - 1, st, n, m);
        match st.mode
        case NoMode => CTurnOutside(lines, i - 1, st);
        case CPP => CTurnInSlashes(lines, i - 1, st, n);
        case C => CTurnInComment(lines, i - 1, st, n);
      }
    }
  }

  // ---------------------------------------------------------------- the tiling is the scan

  lemma TextIsNotBlank(s: string, i: nat)
    requires i < |s| && !IsSpace(s[i])
    ensures !Blank(s)
  {
    BlankIff(s);
  }

  lemma MarkIsText(s: string, p: string)
    requires |p| == 2 && p[0] == '/' && Has(s, p)
    ensures !Blank(s)
  {
    var i := Search(s, p, 0).value;
    assert s[i..i + 2][0] == s[i];
    TextIsNotBlank(s, i);
  }

  /** A line with a comment is not blank. */
  lemma CommentIsNotBlank(s: string)
    ensures Has(s, "//") || Has(s, "/*") ==> !Blank(s)
  {
    if Has(s, "//") { MarkIsText(s, "//"); }
    if Has(s, "/*") { MarkIsText(s, "/*"); }
  }

  /** Between blocks, or in a "//" block that the next line is going to close. */
  ghost predicate Reached(lines: seq<string>, blocks: seq<Block>, n: nat, st: Scan) {
    && st.progress == Running
    && ((st.mode == NoMode && st.blocks == blocks)
        || (blocks != [] && SlashBlock(lines, blocks[|blocks| - 1]) && blocks[|blocks| - 1].last + 1 == n
            && st == Scan(blocks[..|blocks| - 1], Some(blocks[|blocks| - 1].first), CPP, Running)))
  }

  /** Where a "//" block starts, the one before it ends. */
  lemma NoticeStarts(lines: seq<string>, blocks: seq<Block>, n: nat, st: Scan)
    requires n < |lines| && Has(lines[n], "//") && Reached(lines, blocks, n, st)
    ensures st.progress == Running && (st.mode == CPP || (st.mode == NoMode && st.blocks == blocks))
    ensures st.mode == CPP ==>
              StartsNotice(lines[n]) && n > 0 && st.start.Some? && blocks == st.blocks + [Block(st.start.value, n - 1)]
  {
    hide Has, ModeLine, SlashesFirst, StartsNotice, Blank, SlashLines;
    if st.mode == CPP {
      assert blocks == blocks[..|blocks| - 1] + [blocks[|blocks| - 1]];
    }
  }

  lemma SlashStart(lines: seq<string>, blocks: seq<Block>, n: nat)
    requires n < |lines| && SlashLines(lines, n, n + 1) && Reached(lines, blocks, n, CScan(lines[..n]))
    ensures CScan(lines[..n + 1]) == Scan(blocks, Some(n), CPP, Running)
  {
    assert SlashLine(lines[n]) && Has(lines[n], "//") && !Skipped(lines, n);
    hide Has, ModeLine, SlashesFirst, StartsNotice, Blank, CScan, SlashLines, Reached;
    NoticeStarts(lines, blocks, n, CScan(lines[..n]));
    CScanNext(lines, n);
  }

  /** A "//" line that may start a block does so, and its block goes on. */
  lemma {:induction false} SlashRun(lines: seq<string>, blocks: seq<Block>, n: nat, m: nat)
    requires m <= |lines| && SlashLines(lines, n, m) && Reached(lines, blocks, n, CScan(lines[..n]))
    ensures CScan(lines[..m]) == Scan(blocks, Some(n), CPP, Running)
  {
    hide Has, ModeLine, SlashesFirst, StartsNotice, Blank, Reached, CScan;
    if m == n + 1 {
      SlashStart(lines, blocks, n);
    } else {
      SlashRun(lines, blocks, n, m - 1);
      CScanNext(lines, m - 1);
      NoticeHasSlashes(lines[m - 1]);
    }
  }

  /** Where a comment is opened, a "//" block before it ends. */
  lemma OpenerEnds(lines: seq<string>, blocks: seq<Block>, n: nat, st: Scan)
    requires n < |lines| && Reached(lines, blocks, n, st)
    ensures st.progress == Running && (st.mode == CPP || (st.mode == NoMode && st.blocks == blocks))
    ensures st.mode == CPP ==> n > 0 && st.start.Some? && blocks == st.blocks + [Block(st.start.value, n - 1)]
  {
    hide SlashBlock;
    if st.mode == CPP {
      assert blocks == blocks[..|blocks| - 1] + [blocks[|blocks| - 1]];
    }
  }

  /** A line that opens a comment does so, and the comment goes on. */
  lemma {:induction false} StarRun(lines: seq<string>, blocks: seq<Block>, n: nat, m: nat)
    requires m <= |lines| && OpenComment(lines, n, m) && Reached(lines, blocks, n, CScan(lines[..n]))
    ensures CScan(lines[..m]) == Scan(blocks, Some(n), C, Running)
  {
    hide Has, ModeLine, SlashesFirst, StartsNotice, Blank, Reached, CScan;
    CScanNext(lines, m - 1);
    if m - 1 > n {
      StarRun(lines, blocks, n, m - 1);
    } else {
      OpenerEnds(lines, blocks, n, CScan(lines[..n]));
      CommentIsNotBlank(lines[n]);
    }
  }

  lemma BlockReached(lines: seq<string>, front: seq<Block>, b: Block)
    requires b.last < |lines| && (SlashBlock(lines, b) || StarBlock(lines, b))
    requires Reached(lines, front, b.first, CScan(lines[..b.first]))
    ensures Reached(lines, front + [b], b.last + 1, CScan(lines[..b.last + 1]))
  {
    hide Has, ModeLine, SlashLines, Closes, Opener;
    var more := front + [b];
    assert more[|more| - 1] == b && more[..|more| - 1] == front;
    if SlashBlock(lines, b) {
      SlashRun(lines, front, b.first, b.last + 1);
    } else {
      StarRun(lines, front, b.first, b.last);
      CScanNext(lines, b.last);
    }
  }

  lemma IgnoredReached(lines: seq<string>, blocks: seq<Block>, n: nat)
    requires n < |lines| && Ignored(lines, n) && Reached(lines, blocks, n, CScan(lines[..n]))
    ensures Reached(lines, blocks, n + 1, CScan(lines[..n + 1]))
  {
    hide Has, ModeLine, SlashLines, StartsNotice, SlashesFirst, Blank;
    CScanNext(lines, n);
    CommentIsNotBlank(lines[n]);
  }

  /** The blocks but the last tile what is before it. */
  lemma TilesFront(lines: seq<string>, blocks: seq<Block>, n: nat, k: nat)
    requires n <= |lines| && Tiles(lines, blocks, n) && k < |blocks|
    ensures blocks[k].first <= |lines| && Tiles(lines, blocks[..k], blocks[k].first)
  {
    hide SlashBlock, StarBlock, Ignored;
    forall x | 0 <= x < blocks[k].first ensures InSome(blocks[..k], x) || Ignored(lines, x) {
      if InSome(blocks, x) {
        var i :| 0 <= i < |blocks| && blocks[i].first <= x <= blocks[i].last;
        assert i < k && blocks[..k][i] == blocks[i];
      }
    }
  }

  /** Without the last line, when it is in no block. */
  lemma TilesShorter(lines: seq<string>, blocks: seq<Block>, n: nat)
    requires 0 < n <= |lines| && Tiles(lines, blocks, n)
    requires blocks == [] || blocks[|blocks| - 1].last != n - 1
    ensures Tiles(lines, blocks, n - 1) && Ignored(lines, n - 1)
  {
    hide SlashBlock, StarBlock, Ignored;
    forall k | 0 <= k < |blocks| ensures blocks[k].last < n - 1 {
      assert k < |blocks| - 1 ==> blocks[k].last < blocks[|blocks| - 1].first;
    }
  }

  /** A tiling of the front of the file is what the scan finds there. */
  lemma {:induction false} TilesReached(lines: seq<string>, blocks: seq<Block>, n: nat)
    requires n <= |lines| && Tiles(lines, blocks, n)
    ensures Reached(lines, blocks, n, CScan(lines[..n]))
    decreases n
  {
    hide SlashBlock, StarBlock, Ignored, CTurn;
    if n == 0 {
      assert blocks == [];
      assert lines[..0] == [];
    } else if blocks != [] && blocks[|blocks| - 1].last == n - 1 {
      var k := |blocks| - 1;
      TilesFront(lines, blocks, n, k);
      TilesReached(lines, blocks[..k], blocks[k].first);
      assert blocks == blocks[..k] + [blocks[k]];
      BlockReached(lines, blocks[..k], blocks[k]);
    } else {
      TilesShorter(lines, blocks, n);
      TilesReached(lines, blocks, n - 1);
      IgnoredReached(lines, blocks, n - 1);
    }
  }

  /** The first n lines have one tiling at most. */
  lemma TilingIsUnique(lines: seq<string>, a: seq<Block>, b: seq<Block>, n: nat)
    requires n <= |lines| && Tiles(lines, a, n) && Tiles(lines, b, n)
    ensures a == b
  {
    hide Tiles, SlashBlock, CScan;
    TilesReached(lines, a, n);
    TilesReached(lines, b, n);
    if CScan(lines[..n]).mode == CPP {
      assert a == a[..|a| - 1] + [a[|a| - 1]] && b == b[..|b| - 1] + [b[|b| - 1]];
    }
  }

  /** What is told of a scan that has read a file; outside comments nothing depends on where the
      last one started. */
  ghost predicate SameScan(a: Scan, b: Scan) {
    && a.blocks == b.blocks && a.progress == b.progress
    && (a.progress == Running ==> a.mode == b.mode && (a.mode != NoMode ==> a.start == b.start))
  }

  lemma ReadToTheEnd(lines: seq<string>, st: Scan, n: nat)
    requires CInv(lines, |lines|, st, n, |lines|) && st.progress == Running
    ensures SameScan(st, CScan(lines))
  {
    hide Tiles, SlashLines, OpenComment;
    assert lines[..|lines|] == lines;
    TilesReached(lines, st.blocks, n);
    match st.mode
    case NoMode =>
    case CPP => SlashRun(lines, st.blocks, n, |lines|);
    case C => StarRun(lines, st.blocks, n, |lines|);
  }

  lemma StoppedBehind(lines: seq<string>, st: Scan, n: nat, m: nat)
    requires CInv(lines, |lines|, st, n, m) && st.progress != Running && n < m
    ensures SameScan(st, CScan(lines))
  {
    hide Tiles, SlashLines, Has, ModeLine, SlashesFirst, StartsNotice, Blank, CScan, SlashBlock;
    TilesReached(lines, st.blocks, n);
    SlashRun(lines, st.blocks, n, m);
    hide Reached;
    CScanNext(lines, m);
    CScanEnds(lines, m + 1);
  }

  lemma StoppedAt(lines: seq<string>, st: Scan, n: nat)
    requires CInv(lines, |lines|, st, n, n) && st.progress != Running
    ensures SameScan(st, CScan(lines))
  {
    hide Tiles, Has, ModeLine, SlashesFirst, StartsNotice, Blank, CScan;
    var before := CScan(lines[..n]);
    TilesReached(lines, st.blocks, n);
    CScanNext(lines, n);
    if before.mode == CPP {
      assert Closes(lines[n]);
      assert st.blocks == before.blocks + [Block(before.start.value, n - 1)];
    }
    hide Reached;
    assert SameScan(st, CTurn(before, n, lines[n]));
    CScanEnds(lines, n + 1);
  }

  /** The main result for C and its kin: the result of a scan is the one way to tile the file up to
      where reading stopped. */
  lemma BlocksTile(lines: seq<string>, st: Scan)
    ensures Stands(lines, |lines|, st) <==> SameScan(st, CScan(lines))
    ensures exists n: nat :: n <= |lines| && Tiles(lines, CScan(lines).blocks, n)
  {
    hide CScan, Tiles, SlashLines, OpenComment, Has, Skipped, Blank;
    CScanStands(lines, |lines|);
    assert lines[..|lines|] == lines;
    var n: nat, m: nat :| CInv(lines, |lines|, CScan(lines), n, m);
    assert n <= |lines| && Tiles(lines, CScan(lines).blocks, n);
    if SameScan(st, CScan(lines)) {
      assert CInv(lines, |lines|, st, n, m);
    }
    if Stands(lines, |lines|, st) {
      var n: nat, m: nat :| CInv(lines, |lines|, st, n, m);
      if st.progress == Running {
        ReadToTheEnd(lines, st, n);
      } else if n < m {
        StoppedBehind(lines, st, n, m);
      } else {
        StoppedAt(lines, st, n);
      }
    }
  }

  /** A line with both kinds of comment, behind a tiling and possibly a "//" block that is open. */
  ghost predicate MixedAt(lines: seq<string>, blocks: seq<Block>, n: nat, m: nat) {
    && n <= m < |lines| && Tiles(lines, blocks, n) && (n < m ==> SlashLines(lines, n, m))
    && Has(lines[m], "//") && Has(lines[m], "/*") && !Skipped(lines, m)
  }

  /** The scan fails exactly on the files in which such a line is not inside a comment. */
  lemma FailsIffMixed(lines: seq<string>)
    ensures Found(lines, CLike).1 == AssertionError <==>
            exists blocks, n: nat, m: nat :: MixedAt(lines, blocks, n, m)
  {
    hide CScan, Tiles, SlashLines, OpenComment, Has, Skipped, Blank;
    var end := CScan(lines);
    BlocksTile(lines, end);
    var n: nat, m: nat :| CInv(lines, |lines|, end, n, m);
    if end.progress == AssertionFailed {
      assert MixedAt(lines, end.blocks, n, m);
    }
    if blocks, n: nat, m: nat :| MixedAt(lines, blocks, n, m) {
      var st := Scan(blocks, None, NoMode, AssertionFailed);
      assert CInv(lines, |lines|, st, n, m);
      BlocksTile(lines, st);
    }
  }

  lemma {:induction false} BlocksGrow(lines: seq<string>, n: nat, m: nat)
    requires n <= m <= |lines|
    ensures CScan(lines[..n]).blocks <= CScan(lines[..m]).blocks
  {
    hide Has, ModeLine, SlashesFirst, StartsNotice, Blank;
    if n < m {
      BlocksGrow(lines, n, m - 1);
      CScanNext(lines, m - 1);
    }
  }

  lemma PendingIsYielded(lines: seq<string>, blocks: seq<Block>, b: Block, st: Scan)
    requires b.last + 1 < |lines| && Reached(lines, blocks + [b], b.last + 1, st) && st.mode == CPP
    ensures b in CTurn(st, b.last + 1, lines[b.last + 1]).blocks
  {
    hide SlashLines, Has, ModeLine, SlashesFirst, StartsNotice, Blank;
    var all := blocks + [b];
    assert all[..|all| - 1] == blocks && all[|all| - 1] == b;
    assert Closes(lines[b.last + 1]);
  }

  /** What is pending is yielded with the next line. */
  lemma TiledIsYielded(lines: seq<string>, blocks: seq<Block>, b: Block)
    requires b.last < |lines| && Tiles(lines, blocks + [b], b.last + 1)
    ensures b in CScan(lines).blocks
  {
    hide Tiles, CTurn, CScan, SlashLines, Closes;
    var all, n := blocks + [b], b.last + 1;
    TilesReached(lines, all, n);
    assert lines[..|lines|] == lines;
    BlocksGrow(lines, n, |lines|);
    if CScan(lines[..n]).mode == CPP {
      assert n < |lines|;
      CScanNext(lines, n);
      PendingIsYielded(lines, blocks, b, CScan(lines[..n]));
      BlocksGrow(lines, n + 1, |lines|);
    } else {
      assert all[|blocks|] == b;
    }
  }

  /** Exactly the blocks that can be added to a tiling are yielded. */
  lemma BlocksExactly(lines: seq<string>, b: Block)
    ensures b in Found(lines, CLike).0 <==>
            && b.first <= |lines| && (SlashBlock(lines, b) || StarBlock(lines, b))
            && exists blocks :: Tiles(lines, blocks, b.first)
  {
    hide Tiles, SlashBlock, StarBlock;
    var end := CScan(lines);
    BlocksTile(lines, end);
    if b in end.blocks {
      var n: nat :| n <= |lines| && Tiles(lines, end.blocks, n);
      var k :| 0 <= k < |end.blocks| && end.blocks[k] == b;
      TilesFront(lines, end.blocks, n, k);
      TiledKind(lines, end.blocks, n, k);
    }
    if b.first <= |lines| && (SlashBlock(lines, b) || StarBlock(lines, b)) {
      if blocks :| Tiles(lines, blocks, b.first) {
        KindInside(lines, b);
        TilesBlock(lines, blocks, b);
        TiledIsYielded(lines, blocks, b);
      }
    }
  }

  lemma TiledKind(lines: seq<string>, blocks: seq<Block>, n: nat, k: nat)
    requires n <= |lines| && Tiles(lines, blocks, n) && k < |blocks|
    ensures SlashBlock(lines, blocks[k]) || StarBlock(lines, blocks[k])
  {
  }

  lemma KindInside(lines: seq<string>, b: Block)
    requires SlashBlock(lines, b) || StarBlock(lines, b)
    ensures b.first <= b.last < |lines|
  {
  }

  /** A "//" block that reading comes to is yielded exactly if a line is behind it that closes it:
      not at the end of the file, and not in front of code that has a comment of its own. */
  lemma YieldedIffClosed(lines: seq<string>, blocks: seq<Block>, b: Block)
    requires b.first <= b.last < |lines| && Tiles(lines, blocks, b.first) && SlashLines(lines, b.first, b.last + 1)
    ensures b in Found(lines, CLike).0 <==> b.last + 1 < |lines| && Closes(lines[b.last + 1])
  {
    hide Tiles, CScan, Has, ModeLine, SlashesFirst, StartsNotice, Blank;
    BlocksExactly(lines, b);
  }

  // ---------------------------------------------------------------- what is inside a comment

  /** Whether a comment is open behind s, if it was or was not in front: the reading of C, in which
      a "//" hides the rest of the line. */
  function OpenAfter(s: string, inside: bool): bool
    decreases |s|
  {
    if inside then
      var m := Search(s, "*/", 0);
      if m.None? then true else OpenAfter(s[m.value + 2..], false)
    else
      var m, hidden := Search(s, "/*", 0), Search(s, "//", 0);
      if m.None? || (hidden.Some? && hidden.value < m.value) then false else OpenAfter(s[m.value + 2..], true)
  }

  /** Whether line x starts inside a comment, if line first does not. */
  function Inside(lines: seq<string>, first: nat, x: nat): bool
    requires first <= x <= |lines|
  {
    if x == first then false else OpenAfter(lines[x - 1], Inside(lines, first, x - 1))
  }

  /** Line x of a block is no "//" line and does not start inside the comment that opens the block. */
  predicate Uncommented(lines: seq<string>, b: Block, x: nat)
    requires b.first <= x < |lines|
  {
    if Has(lines[b.first], "//") then !SlashLine(lines[x]) else b.first < x && !Inside(lines, b.first, x)
  }

  lemma {:induction false} StaysInside(lines: seq<string>, b: Block, x: nat)
    requires StarBlock(lines, b) && b.first < x <= b.last && OpenAfter(lines[b.first], false)
    ensures Inside(lines, b.first, x)
  {
    if x > b.first + 1 { StaysInside(lines, b, x - 1); }
  }

  /** A block holds a line that does not start inside its comment exactly if its first line leaves no
      comment open: it must have been closed on that line. */
  lemma OutsideIffClosedAtOnce(lines: seq<string>, b: Block)
    requires b in Found(lines, CLike).0
    ensures b.first <= b.last < |lines|
    ensures (exists x: nat :: b.first <= x <= b.last && Uncommented(lines, b, x)) <==>
            !Has(lines[b.first], "//") && !OpenAfter(lines[b.first], false)
  {
    hide Found, Tiles, Has, SlashLine, OpenAfter;
    BlocksExactly(lines, b);
    KindInside(lines, b);
    if StarBlock(lines, b) {
      if OpenAfter(lines[b.first], false) {
        forall x: nat | b.first < x <= b.last ensures Inside(lines, b.first, x) {
          StaysInside(lines, b, x);
        }
      } else {
        assert Inside(lines, b.first, b.first + 1) == OpenAfter(lines[b.first], Inside(lines, b.first, b.first));
        assert Uncommented(lines, b, b.first + 1);
      }
    }
  }

  // ---------------------------------------------------------------- code inside a block

  /** What the line starts with behind its blanks. */
  predicate Starts(s: string, p: string) { At(StripLeft(s), p, 0) }

  /** Neither blank nor a "//" comment. */
  predicate HasText(s: string) { !Blank(s) && !Starts(s, "//") }

  /** Line x starts with code: not inside the comment that line first opens, and not with one. */
  predicate IsCode(lines: seq<string>, first: nat, x: nat)
    requires first <= x < |lines|
  {
    !Inside(lines, first, x) && HasText(lines[x]) && !Starts(lines[x], "/*")
  }

  /** The first line with text from i to last, or the one behind last. */
  function FirstText(lines: seq<string>, i: nat, last: nat): (y: nat)
    requires i <= last + 1 && last < |lines|
    ensures i <= y <= last + 1 && (y <= last ==> HasText(lines[y]))
    ensures forall z :: i <= z < y ==> !HasText(lines[z])
    decreases last + 1 - i
  {
    if i > last || HasText(lines[i]) then i else FirstText(lines, i + 1, last)
  }

  /** A mark at the start of a line is the first of both marks. */
  lemma StartsFirst(s: string, p: string, q: string)
    requires Starts(s, p) && |p| == |q| == 2 && p[0] == q[0] == '/' && p[1] != q[1]
    ensures var m := Search(s, p, 0);
            m.Some? && (Search(s, q, 0).Some? ==> m.value < Search(s, q, 0).value)
  {
    var k := |s| - |StripLeft(s)|;
    StripLeftIs(s);
    assert s[k..][0..2] == s[k..k + 2] == p;
    assert At(s, p, k);
    MarkIsBehind(s, p, k);
    MarkIsBehind(s, q, k);
    assert s[k + 1] == s[k..k + 2][1] == p[1];
    assert s[k..k + 2] != q;
  }

  lemma MarkIsBehind(s: string, p: string, k: nat)
    requires |p| == 2 && p[0] == '/' && k <= |s| && forall i :: 0 <= i < k ==> IsSpace(s[i])
    ensures Search(s, p, 0).Some? ==> Search(s, p, 0).value >= k
  {
    var m := Search(s, p, 0);
    if m.Some? {
      assert s[m.value..m.value + 2][0] == s[m.value];
    }
  }

  lemma {:induction false} SearchShorter(s: string, p: string, k: nat)
    requires !Has(s, p) && k <= |s|
    ensures !Has(s[k..], p)
  {
    var m := Search(s[k..], p, 0);
    if m.Some? {
      assert s[k + m.value..k + m.value + |p|] == s[k..][m.value..m.value + |p|];
      assert At(s, p, k + m.value);
    }
  }

  /** What a line leaves open, by its first text. */
  lemma StaysOutside(s: string)
    requires !HasText(s)
    ensures !OpenAfter(s, false)
  {
    if Blank(s) {
      CommentIsNotBlank(s);
    } else {
      StartsFirst(s, "//", "/*");
    }
  }

  lemma StaysOpen(s: string)
    requires !Has(s, "*/")
    ensures OpenAfter(s, true)
    ensures Starts(s, "/*") ==> OpenAfter(s, false)
  {
    if Starts(s, "/*") {
      StartsFirst(s, "/*", "//");
      SearchShorter(s, "*/", Search(s, "/*", 0).value + 2);
    }
  }

  lemma {:induction false} OutsideUntilText(lines: seq<string>, first: nat, last: nat, x: nat)
    requires first < x <= last < |lines| && !OpenAfter(lines[first], false)
    requires x <= FirstText(lines, first + 1, last)
    ensures !Inside(lines, first, x)
  {
    hide OpenAfter, HasText;
    if x > first + 1 {
      OutsideUntilText(lines, first, last, x - 1);
      StaysOutside(lines[x - 1]);
    } else {
      assert !Inside(lines, first, first);
    }
  }

  lemma {:induction false} InsideBehind(lines: seq<string>, first: nat, y: nat, last: nat, x: nat)
    requires first < y < x <= last < |lines| && !Inside(lines, first, y) && Starts(lines[y], "/*")
    requires forall z :: y <= z < last ==> !Has(lines[z], "*/")
    ensures Inside(lines, first, x)
  {
    hide OpenAfter, Starts, Has;
    StaysOpen(lines[x - 1]);
    if x > y + 1 { InsideBehind(lines, first, y, last, x - 1); }
  }

  lemma SlashLineHasNoText(s: string)
    requires SlashLine(s)
    ensures !HasText(s)
  {
    if SlashesFirst(s) {
      var m := Search(s, "//", 0).value;
      var k := |s| - |StripLeft(s)|;
      StripLeftIs(s);
      assert s[m..m + 2][0] == s[m];
      assert k <= m;
      if k < m {
        assert s[..m][k] == s[k] == StripLeft(s)[0];
        TextIsNotBlank(s[..m], k);
      } else {
        assert StripLeft(s)[0..2] == s[m..m + 2];
      }
    }
  }

  /** The main result on what a block takes in: some line behind its first starts with code exactly
      if the comment is closed on the first line and what follows it first is code. */
  lemma TakesInCodeIff(lines: seq<string>, b: Block)
    requires b in Found(lines, CLike).0
    ensures b.first <= b.last < |lines|
    ensures (exists x: nat :: b.first < x <= b.last && IsCode(lines, b.first, x)) <==>
              var y := FirstText(lines, b.first + 1, b.last);
              !Has(lines[b.first], "//") && !OpenAfter(lines[b.first], false)
                && y <= b.last && !Starts(lines[y], "/*")
  {
    hide Found, Tiles, Has, OpenAfter, HasText, Starts, SlashLine;
    BlocksExactly(lines, b);
    KindInside(lines, b);
    if SlashBlock(lines, b) {
      forall x: nat | b.first < x <= b.last ensures !HasText(lines[x]) {
        SlashLineHasNoText(lines[x]);
      }
    } else if OpenAfter(lines[b.first], false) {
      forall x: nat | b.first < x <= b.last ensures Inside(lines, b.first, x) {
        StaysInside(lines, b, x);
      }
    } else {
      StarTakesInCodeIff(lines, b);
    }
  }

  lemma StarTakesInCodeIff(lines: seq<string>, b: Block)
    requires StarBlock(lines, b) && !OpenAfter(lines[b.first], false)
    ensures (exists x: nat :: b.first < x <= b.last && IsCode(lines, b.first, x)) <==>
              var y := FirstText(lines, b.first + 1, b.last);
              y <= b.last && !Starts(lines[y], "/*")
  {
    hide Has, OpenAfter, HasText, Starts;
    var y := FirstText(lines, b.first + 1, b.last);
    if y <= b.last {
      OutsideUntilText(lines, b.first, b.last, y);
      if Starts(lines[y], "/*") {
        forall x: nat | y < x <= b.last ensures Inside(lines, b.first, x) {
          InsideBehind(lines, b.first, y, b.last, x);
        }
      } else {
        assert IsCode(lines, b.first, y);
      }
    }
  }

  /** Blocks of every language are in bounds, in order and apart, also when an assertion ends the scan. */
  lemma BlocksInOrder(lines: seq<string>, lang: Language)
    ensures InOrder(Found(lines, lang).0, |lines|)
  {
    hide Tiles, CScan, LineScan, Kinds, IsRun;
    if lang == CLike {
      BlocksTile(lines, CScan(lines));
      var n: nat :| n <= |lines| && Tiles(lines, CScan(lines).blocks, n);
      TilesInOrder(lines, CScan(lines).blocks, n);
    } else if lang != Unknown {
      BlocksAreRuns(lines, lang);
    }
  }

  lemma TilesInOrder(lines: seq<string>, blocks: seq<Block>, n: nat)
    requires n <= |lines| && Tiles(lines, blocks, n)
    ensures InOrder(blocks, |lines|)
  {
  }

  // ---------------------------------------------------------------- what the scanner misreads

  lemma FirstTurn(lines: seq<string>)
    requires lines != [] && !ModeLine(lines[0])
    ensures CScan(lines[..1]) == CTurn(FRESH, 0, lines[0])
  {
  }

  /** A file that starts with a comment naming a URL is not read at all. */
  lemma UrlFails(lines: seq<string>)
    requires lines != [] && !ModeLine(lines[0]) && Has(lines[0], "/*") && Has(lines[0], "//")
    ensures Found(lines, CLike) == ([], AssertionError)
  {
    hide Has, ModeLine;
    FirstTurn(lines);
    CScanEnds(lines, 1);
  }

  /** A comment closed on its own line stays open, and takes the code behind it into its block. */
  lemma CodeIsSwallowed(opener: string, code: string, closer: string)
    requires !ModeLine(opener) && Has(opener, "/*") && Has(opener, "*/") && !Has(opener, "//")
    requires !Has(code, "*/") && Has(closer, "*/")
    ensures Found([opener, code, closer], CLike) == ([Block(0, 2)], Done)
  {
    hide Has, ModeLine;
    var lines := [opener, code, closer];
    FirstTurn(lines);
    CScanNext(lines, 1);
    CScanNext(lines, 2);
    assert lines[..3] == lines;
    assert CScan(lines[..2]) == Scan([], Some(0), C, Running);
    assert CScan(lines).blocks == [Block(0, 2)];
  }

  /** A "//" block is lost when the code right behind it ends in a comment of its own. */
  lemma BlockIsLost(notice: string, code: string, rest: seq<string>)
    requires !ModeLine(notice) && SlashesFirst(notice) && !Has(notice, "/*")
    requires Has(code, "//") && !SlashesFirst(code) && !Has(code, "/*")
    ensures Found([notice, code] + rest, CLike) == ([], Done)
  {
    hide ModeLine, Blank;
    var lines := [notice, code] + rest;
    FirstTurn(lines);
    CScanNext(lines, 1);
    CScanEnds(lines, 2);
  }

  // ---------------------------------------------------------------- trimming

  lemma {:induction false} EndOfAuthorsInside(lines: seq<string>, j: nat, last: nat)
    requires 0 < j <= last + 1 && last < |lines|
    ensures j - 1 <= EndOfAuthors(lines, j, last) <= last
    decreases last + 1 - j
  {
    if j <= last { EndOfAuthorsInside(lines, j + 1, last); }
  }

  lemma {:induction false} TrimInside(p: Patterns, lines: seq<string>, first: nat, i: nat, last: nat, found: bool)
    requires first <= i <= last + 1 && first <= last < |lines| && (found ==> i > first)
    ensures first <= TrimFrom(p, lines, i, last, found) <= last
    decreases last + 1 - i
  {
    if i <= last {
      if found && !p.more(lines[i]) {
        EndOfAuthorsInside(lines, i, last);
      } else {
        TrimInside(p, lines, first, i + 1, last, if found then true else p.authors(lines[i]));
      }
    }
  }

  /** Where a list of authors ends its block: a blank line, or text behind "//". */
  predicate EndsBlock(s: string) {
    Strip(s) == [] || (At(Strip(s), "//", 0) && StripLeft(Strip(s)[2..]) != [])
  }

  lemma {:induction false} EndOfAuthorsIs(lines: seq<string>, j: nat, last: nat, e: nat)
    requires 0 < j <= e <= last + 1 && last < |lines|
    requires forall i :: j <= i < e ==> !EndsBlock(lines[i])
    requires e <= last ==> EndsBlock(lines[e])
    ensures EndOfAuthors(lines, j, last) == if e > last then last else if Strip(lines[e]) == [] then e else e - 1
    decreases e - j
  {
    if j < e { EndOfAuthorsIs(lines, j + 1, last, e); }
  }

  lemma {:induction false} BeforeAuthors(p: Patterns, lines: seq<string>, i: nat, last: nat, a: nat)
    requires i <= a <= last + 1 && last < |lines|
    requires forall x :: i <= x < a ==> !p.authors(lines[x])
    requires a <= last ==> p.authors(lines[a])
    ensures TrimFrom(p, lines, i, last, false) == if a > last then last else TrimFrom(p, lines, a + 1, last, true)
    decreases a - i
  {
    if i < a { BeforeAuthors(p, lines, i + 1, last, a); }
  }

  lemma {:induction false} AmongAuthors(p: Patterns, lines: seq<string>, i: nat, last: nat, c: nat)
    requires 0 < i <= c <= last + 1 && last < |lines|
    requires forall x :: i <= x < c ==> p.more(lines[x])
    requires c <= last ==> !p.more(lines[c])
    ensures TrimFrom(p, lines, i, last, true) == if c > last then last else EndOfAuthors(lines, c, last)
    decreases c - i
  {
    if i < c { AmongAuthors(p, lines, i + 1, last, c); }
  }

  /** The new end of a block with the first line of authors at a, the first line behind that is none
      at c, and the first line from there that ends the block at e. */
  lemma TrimExactly(p: Patterns, lines: seq<string>, b: Block, a: nat, c: nat, e: nat)
    requires b.first <= a < c <= e <= b.last + 1 && b.last < |lines| && a <= b.last
    requires p.authors(lines[a]) && forall x :: b.first <= x < a ==> !p.authors(lines[x])
    requires (forall x :: a < x < c ==> p.more(lines[x])) && (c <= b.last ==> !p.more(lines[c]))
    requires (forall x :: c <= x < e ==> !EndsBlock(lines[x])) && (e <= b.last ==> EndsBlock(lines[e]))
    ensures TrimFrom(p, lines, b.first, b.last, false)
         == if e > b.last then b.last else if Strip(lines[e]) == [] then e else e - 1
  {
    hide EndsBlock, EndOfAuthors;
    BeforeAuthors(p, lines, b.first, b.last, a);
    AmongAuthors(p, lines, a + 1, b.last, c);
    if c <= b.last { EndOfAuthorsIs(lines, c, b.last, e); }
  }

  /** A block without authors keeps its end. */
  lemma TrimNothing(p: Patterns, lines: seq<string>, b: Block)
    requires b.first <= b.last < |lines| && forall x :: b.first <= x <= b.last ==> !p.authors(lines[x])
    ensures TrimFrom(p, lines, b.first, b.last, false) == b.last
  {
    BeforeAuthors(p, lines, b.first, b.last, b.last + 1);
  }

  function TrimAll(p: Patterns, lines: seq<string>, blocks: seq<Block>): (r: seq<Block>)
    requires forall k :: 0 <= k < |blocks| ==> blocks[k].last < |lines|
    ensures |r| == |blocks|
  {
    seq(|blocks|, k requires 0 <= k < |blocks| =>
      Block(blocks[k].first, TrimFrom(p, lines, blocks[k].first, blocks[k].last, false)))
  }

  /** Whatever the patterns for authors match, the trimmed blocks stay non-empty and apart. */
  lemma TrimmedInOrder(p: Patterns, lines: seq<string>, lang: Language)
    ensures InOrder(Found(lines, lang).0, |lines|)
    ensures InOrder(TrimAll(p, lines, Found(lines, lang).0), |lines|)
  {
    hide Found;
    BlocksInOrder(lines, lang);
    var blocks := Found(lines, lang).0;
    forall k | 0 <= k < |blocks|
      ensures blocks[k].first <= TrimFrom(p, lines, blocks[k].first, blocks[k].last, false) <= blocks[k].last
    {
      TrimInside(p, lines, blocks[k].first, blocks[k].first, blocks[k].last, false);
    }
  }
}
