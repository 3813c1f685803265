/** What `parse_status_v2` in gateway/src/routes/git.rs makes of the text that
    `git status --porcelain=v2 --branch` prints: git marks an unchanged side
    with a dot, and the parser expects a blank there. */
module GitStatus {
  import opened Prelude
  import opened Porcelain
  import opened PorcelainRoundTrip

  const OID := "# branch.oid "

  predicate IsChangeEntry(e: Entry) {
    e.Changed? || e.Renamed? || e.Unmerged?
  }

  function Dot(c: char): char {
    if c == ' ' then '.' else c
  }

  /** The entry with its letters as git prints them. */
  function Dotted(e: Entry): Entry {
    match e
    case Changed(x, y, meta, path) => Changed(Dot(x), Dot(y), meta, path)
    case Renamed(x, y, meta, path, orig) => Renamed(Dot(x), Dot(y), meta, path, orig)
    case Unmerged(x, y, meta, path) => Unmerged(Dot(x), Dot(y), meta, path)
    case _ => e
  }

  function PrintDotted(entries: seq<Entry>): seq<string> {
    if entries == [] then [] else [PrintEntry(Dotted(entries[0]))] + PrintDotted(entries[1..])
  }

  /** Git's output, from the object name of the head on. */
  function PrintGit(oid: string, r: Report): string {
    Unlines([OID + oid] + (PrintHeaders(r) + PrintDotted(r.entries)))
  }

  /** The text of the paths on a change line. */
  function Tail(e: Entry): string
    requires IsChangeEntry(e)
  {
    if e.Renamed? then e.path + "\t" + e.orig else e.path
  }

  predicate PrintedPath(s: string) {
    '\t' !in s && LineText(s)
  }

  /** What git prints an entry for: something changed. Paths are taken as
      printed, and may hold blanks. */
  predicate FromGit(e: Entry) {
    if IsChangeEntry(e) then
      && Letter(e.x) && Letter(e.y) && e.x != '.' && e.y != '.' && (e.x != ' ' || e.y != ' ')
      && '\n' !in e.meta && e.path != "" && PrintedPath(e.path) && (e.Renamed? ==> PrintedPath(e.orig))
    else LineText(e.path)
  }

  predicate FromGitReport(oid: string, r: Report) {
    && LineText(oid)
    && PrintableReport(r.(entries := []))
    && forall e :: e in r.entries ==> FromGit(e)
  }

  // ------------------------------------------------- what is read

  /** The path that the parser takes. */
  function ReadPath(e: Entry): string
    requires IsChangeEntry(e)
  {
    BeforeTab(LastToken(Tail(e)))
  }

  function ReadSide(e: Entry, c: char): seq<FileChange>
    requires IsChangeEntry(e)
  {
    if ReadPath(e) == "" then [] else [FileChange(ReadPath(e), Dot(c))]
  }

  function TrueSide(e: Entry, c: char): seq<FileChange> {
    if c == ' ' then [] else [FileChange(e.path, c)]
  }

  const StagedRead: Entry -> seq<FileChange> := e => if IsChangeEntry(e) then ReadSide(e, e.x) else []
  const UnstagedRead: Entry -> seq<FileChange> := e => if IsChangeEntry(e) then ReadSide(e, e.y) else []
  const StagedTrue: Entry -> seq<FileChange> := e => if IsChangeEntry(e) then TrueSide(e, e.x) else []
  const UnstagedTrue: Entry -> seq<FileChange> := e => if IsChangeEntry(e) then TrueSide(e, e.y) else []

  function Each(entries: seq<Entry>, f: Entry -> seq<FileChange>): seq<FileChange> {
    if entries == [] then [] else f(entries[0]) + Each(entries[1..], f)
  }

  /** A status with these lists added. */
  function Plus(s: Status, staged: seq<FileChange>, unstaged: seq<FileChange>, untracked: seq<string>): Status {
    s.(staged := s.staged + staged, unstaged := s.unstaged + unstaged, untracked := s.untracked + untracked)
  }

  function UntrackedOne(e: Entry): seq<string> {
    if e.Untracked? then [e.path] else []
  }

  lemma {:induction false} TokenAfterBlank(front: string, tail: string)
    ensures LastToken(front + " " + tail) == LastToken(tail)
  {
    var s := front + " " + tail;
    if tail == "" {
      assert s[|s| - 1] == ' ';
    } else {
      var t := tail[..|tail| - 1];
      assert s[..|s| - 1] == front + " " + t;
      assert s[|s| - 1] == tail[|tail| - 1];
      TokenAfterBlank(front, t);
    }
  }

  lemma DottedLineIsRead(s: Status, kind: char, x: char, y: char, meta: string, tail: string)
    requires kind == '1' || kind == '2' || kind == 'u'
    requires Letter(x) && Letter(y) && x != ' ' && y != ' '
    ensures var path := BeforeTab(LastToken(tail));
            var (staged, unstaged) :=
              if path == "" then ([], []) else ([FileChange(path, x)], [FileChange(path, y)]);
            Line(s, ChangeLine(kind, x, y, meta, tail)) == Some(Plus(s, staged, unstaged, []))
  {
    var line := ChangeLine(kind, x, y, meta, tail);
    LettersAreRead(kind, x, y, meta, tail);
    AsTwoParts(kind, x, y, meta, tail);
    TokenAfterBlank([kind, ' ', x, y, ' '] + meta, tail);
    EmptyUnit(s.staged);
    EmptyUnit(s.unstaged);
    EmptyUnit(s.untracked);
    hide StatusPair, ByteLength, LastToken, BeforeTab, ChangeLine, Trim, Tokens, AheadBehind;
    assert Line(s, line) == Change(s, line);
  }

  lemma DottedEntryIsRead(s: Status, e: Entry)
    requires FromGit(e)
    ensures Line(s, PrintEntry(Dotted(e))) == Some(Plus(s, StagedRead(e), UnstagedRead(e), UntrackedOne(e)))
  {
    EmptyUnit(s.staged);
    EmptyUnit(s.unstaged);
    EmptyUnit(s.untracked);
    if IsChangeEntry(e) {
      var kind := if e.Changed? then '1' else if e.Renamed? then '2' else 'u';
      DottedLineIsRead(s, kind, Dot(e.x), Dot(e.y), e.meta, Tail(e));
      assert PrintEntry(Dotted(e)) == ChangeLine(kind, Dot(e.x), Dot(e.y), e.meta, Tail(e));
      hide Line, ChangeLine, LastToken, BeforeTab;
    } else {
      assert Dotted(e) == e;
      EntryIsRead(s, e);
      hide Line, PrintEntry;
    }
  }

  lemma PlusTwice(s: Status, a: seq<FileChange>, b: seq<FileChange>, c: seq<string>,
                  a': seq<FileChange>, b': seq<FileChange>, c': seq<string>)
    ensures Plus(Plus(s, a, b, c), a', b', c') == Plus(s, a + a', b + b', c + c')
  {
    Associative(s.staged, a, a');
    Associative(s.unstaged, b, b');
    Associative(s.untracked, c, c');
  }

  lemma PlusNothing(s: Status)
    ensures Plus(s, [], [], []) == s
  {
    EmptyUnit(s.staged);
    EmptyUnit(s.unstaged);
    EmptyUnit(s.untracked);
  }

  lemma DottedIsALine(e: Entry)
    requires FromGit(e)
    ensures LineText(PrintEntry(Dotted(e)))
  {
    var l := PrintEntry(Dotted(e));
    if e.Renamed? {
      assert e.orig != "" ==> l[|l| - 1] == e.orig[|e.orig| - 1];
      assert e.orig == "" ==> l[|l| - 1] == '\t';
    } else {
      assert e.path != "" ==> l[|l| - 1] == e.path[|e.path| - 1];
    }
  }

  lemma {:induction false} DottedEntriesAreRead(s: Status, entries: seq<Entry>)
    requires forall e :: e in entries ==> FromGit(e)
    ensures Fold(s, PrintDotted(entries))
         == Some(Plus(s, Each(entries, StagedRead), Each(entries, UnstagedRead), UntrackedOf(entries)))
    ensures forall l :: l in PrintDotted(entries) ==> LineText(l)
    decreases |entries|
  {
    if entries == [] {
      PlusNothing(s);
    } else {
      var e, rest := entries[0], entries[1..];
      assert e in entries;
      DottedEntryIsRead(s, e);
      DottedIsALine(e);
      hide Line, Plus, PrintEntry, LineText, FromGit;
      DottedEntriesAreRead(Plus(s, StagedRead(e), UnstagedRead(e), UntrackedOne(e)), rest);
      assert PrintDotted(entries)[1..] == PrintDotted(rest);
      PlusTwice(s, StagedRead(e), UnstagedRead(e), UntrackedOne(e),
                Each(rest, StagedRead), Each(rest, UnstagedRead), UntrackedOf(rest));
    }
  }

  function HeadersOf(r: Report): Status {
    WithHeaders(CLEAN, r.(entries := []))
  }

  lemma TopIsRead(oid: string, r: Report)
    requires FromGitReport(oid, r)
    ensures Fold(CLEAN, [OID + oid] + PrintHeaders(r)) == Some(HeadersOf(r))
    ensures forall l :: l in [OID + oid] + PrintHeaders(r) ==> LineText(l)
  {
    var bare := r.(entries := []);
    assert PrintHeaders(r) == PrintHeaders(bare);
    hide PrintHeaders, LineText, Fold, WithHeaders, Line, PrintableReport;
    HeadersAreRead(CLEAN, bare);
    HeadersAreLines(bare);
    OidIsSkipped(CLEAN, oid);
    FoldOne(CLEAN, OID + oid);
    OidIsALine(oid);
    FoldConcat(CLEAN, [OID + oid], PrintHeaders(r));
  }

  lemma OidIsALine(oid: string)
    requires LineText(oid)
    ensures LineText(OID + oid)
  {
    PrefixedLine(OID, oid);
  }

  /** What is read, in full: both lists name every change entry whose path is
      not empty to the parser, with a dot for a side that did not change. */
  lemma GitStatusReads(oid: string, r: Report)
    requires FromGitReport(oid, r)
    ensures ParseStatus(PrintGit(oid, r))
         == Some(Plus(HeadersOf(r), Each(r.entries, StagedRead), Each(r.entries, UnstagedRead), UntrackedOf(r.entries)))
  {
    var top, headers, entries := [OID + oid], PrintHeaders(r), PrintDotted(r.entries);
    hide PrintHeaders, PrintDotted, LineText, Fold, Each, UntrackedOf, Plus, HeadersOf, Line, FromGit, PrintableReport;
    TopIsRead(oid, r);
    DottedEntriesAreRead(HeadersOf(r), r.entries);
    Associative(top, headers, entries);
    LinesOfUnlines(top + headers + entries);
    FoldConcat(CLEAN, top + headers, entries);
  }

  lemma OidIsSkipped(s: Status, oid: string)
    ensures Line(s, OID + oid) == Some(s)
  {
    var line := OID + oid;
    assert line[0] == '#' && line[9] == 'o';
    assert HEAD[9] == 'h' && UPSTREAM[9] == 'u' && AHEAD_BEHIND[9] == 'a';
    assert !(HEAD <= line) && !(UPSTREAM <= line) && !(AHEAD_BEHIND <= line);
    assert "#" <= line;
    hide Trim, Tokens, AheadBehind, Change;
  }

  // --------------------------------------------- when that is right

  predicate EndsWithWord(s: string, word: string) {
    |s| > |word| && s[|s| - |word|..] == word && s[|s| - |word| - 1] == ' '
  }

  /** The parser takes the right path: it holds no blank, and a blank in the
      original of a renaming is followed by that very path. */
  predicate Legible(e: Entry)
    requires IsChangeEntry(e)
  {
    ' ' !in e.path && (e.Renamed? && ' ' in e.orig ==> EndsWithWord(e.orig, e.path))
  }

  lemma {:induction false} NoBlankIsWhole(s: string)
    requires ' ' !in s
    ensures LastToken(s) == s
  {
    if s != "" {
      var front, c := s[..|s| - 1], s[|s| - 1];
      assert s == front + [c] && c in s;
      NoBlankIsWhole(front);
    }
  }

  lemma {:induction false} LastTokenEnds(s: string)
    requires ' ' in s
    ensures EndsWithWord(s, LastToken(s))
  {
    var front, c := s[..|s| - 1], s[|s| - 1];
    assert s == front + [c];
    if c != ' ' {
      LastTokenEnds(front);
      var w := LastToken(front);
      assert LastToken(s) == w + [c];
      hide LastToken;
      assert s[|s| - |w| - 1..] == front[|front| - |w|..] + [c];
    }
  }

  lemma {:induction false} TokenIsLast(s: string, word: string)
    requires ' ' !in word && EndsWithWord(s, word)
    ensures LastToken(s) == word
  {
    var front := s[..|s| - |word| - 1];
    assert s == front + " " + word;
    LastTokenIs(front, word);
  }

  lemma NoTabIsWhole(s: string)
    requires '\t' !in s
    ensures BeforeTab(s) == s
  {
    assert s + "" == s;
    BeforeTabIs(s, "");
  }

  /** A text is its own last token exactly without a blank. */
  lemma WholeIff(s: string)
    requires '\t' !in s
    ensures BeforeTab(LastToken(s)) == LastToken(s)
    ensures LastToken(s) == s <==> ' ' !in s
  {
    if ' ' in s {
      LastTokenEnds(s);
    } else {
      NoBlankIsWhole(s);
    }
    hide LastToken, BeforeTab;
    NoTabIsWhole(LastToken(s));
  }

  lemma ReadPathIff(e: Entry)
    requires IsChangeEntry(e) && FromGit(e)
    ensures ReadPath(e) == e.path <==> Legible(e)
  {
    hide LastToken, BeforeTab, Letter, LineText;
    WholeIff(e.path);
    if e.Renamed? {
      if ' ' in e.orig {
        WholeIff(e.orig);
        LastTokenEnds(e.orig);
        RenamedToken(e.path, e.orig);
        if EndsWithWord(e.orig, e.path) && ' ' !in e.path {
          TokenIsLast(e.orig, e.path);
        }
      } else {
        PlainToken(e.path, e.orig);
      }
    }
  }

  lemma SplitAtToken(s: string) returns (front: string)
    requires ' ' in s
    ensures s == front + " " + LastToken(s)
  {
    LastTokenEnds(s);
    front := s[..|s| - |LastToken(s)| - 1];
    hide LastToken;
  }

  lemma RenamedToken(path: string, orig: string)
    requires ' ' in orig
    ensures LastToken(path + "\t" + orig) == LastToken(orig)
  {
    hide LastToken;
    var w := LastToken(orig);
    var front := SplitAtToken(orig);
    assert path + "\t" + orig == (path + "\t" + front) + " " + w;
    TokenAfterBlank(path + "\t" + front, w);
    TokenAfterBlank(front, w);
  }

  lemma PlainToken(path: string, orig: string)
    requires ' ' !in orig && '\t' !in path
    ensures BeforeTab(LastToken(path + "\t" + orig)) == LastToken(path)
  {
    hide LastToken, BeforeTab;
    var w, end := LastToken(path), "\t" + orig;
    var s := path + "\t" + orig;
    NoBlankIsWhole(w + end);
    if ' ' in path {
      var front := SplitAtToken(path);
      assert s == front + " " + (w + end);
      TokenAfterBlank(front, w + end);
    } else {
      NoBlankIsWhole(path);
      assert s == w + end;
    }
    assert '\t' !in w by { TokenHasNoTab(path); }
    BeforeTabIs(w, end);
  }

  lemma TokenHasNoTab(s: string)
    requires '\t' !in s
    ensures '\t' !in LastToken(s)
  {
    if ' ' in s {
      LastTokenEnds(s);
    } else {
      NoBlankIsWhole(s);
    }
  }

  lemma {:induction false} EachHolds(entries: seq<Entry>, f: Entry -> seq<FileChange>, c: FileChange)
    ensures c in Each(entries, f) <==> exists e :: e in entries && c in f(e)
  {
    if entries != [] {
      EachHolds(entries[1..], f, c);
      assert entries == [entries[0]] + entries[1..];
    }
  }

  lemma {:induction false} EachIsShorter(entries: seq<Entry>, f: Entry -> seq<FileChange>, g: Entry -> seq<FileChange>)
    requires forall e :: e in entries ==> |f(e)| <= |g(e)|
    ensures |Each(entries, f)| <= |Each(entries, g)|
  {
    if entries != [] {
      EachIsShorter(entries[1..], f, g);
    }
  }

  /** Equal lists made of pieces that are nowhere longer are equal piece by
      piece. */
  lemma {:induction false} EachAlike(entries: seq<Entry>, f: Entry -> seq<FileChange>, g: Entry -> seq<FileChange>)
    requires forall e :: e in entries ==> |f(e)| <= |g(e)|
    requires Each(entries, f) == Each(entries, g)
    ensures forall e :: e in entries ==> f(e) == g(e)
  {
    if entries != [] {
      var e, rest := entries[0], entries[1..];
      assert e in entries && entries == [e] + rest;
      EachIsShorter(rest, f, g);
      assert |f(e)| == |g(e)|;
      var all, all' := Each(entries, f), Each(entries, g);
      assert f(e) == all[..|f(e)|] && g(e) == all'[..|g(e)|];
      assert Each(rest, f) == all[|f(e)|..] && Each(rest, g) == all'[|g(e)|..];
      EachAlike(rest, f, g);
    }
  }

  lemma {:induction false} EachSame(entries: seq<Entry>, f: Entry -> seq<FileChange>, g: Entry -> seq<FileChange>)
    requires forall e :: e in entries ==> f(e) == g(e)
    ensures Each(entries, f) == Each(entries, g)
  {
    if entries != [] {
      EachSame(entries[1..], f, g);
    }
  }

  lemma {:induction false} ListsAreEach(entries: seq<Entry>)
    ensures StagedOf(entries) == Each(entries, StagedTrue)
    ensures UnstagedOf(entries) == Each(entries, UnstagedTrue)
  {
    if entries != [] {
      ListsAreEach(entries[1..]);
    }
  }

  /** Both sides changed, and the right path. */
  predicate Recovered(e: Entry) {
    IsChangeEntry(e) ==> e.x != ' ' && e.y != ' ' && Legible(e)
  }

  /** A dot stands in no true list, so an entry that is read at all changed on
      both sides. */
  lemma NoDots(entries: seq<Entry>, e: Entry)
    requires (forall e :: e in entries ==> FromGit(e)) && e in entries && IsChangeEntry(e) && ReadPath(e) != ""
    requires Each(entries, StagedRead) == Each(entries, StagedTrue)
    requires Each(entries, UnstagedRead) == Each(entries, UnstagedTrue)
    ensures e.x != ' ' && e.y != ' '
  {
    hide Each, ReadPath;
    var c := FileChange(ReadPath(e), '.');
    EachHolds(entries, StagedRead, c);
    EachHolds(entries, StagedTrue, c);
    EachHolds(entries, UnstagedRead, c);
    EachHolds(entries, UnstagedTrue, c);
    assert e.x == ' ' ==> c in StagedRead(e);
    assert e.y == ' ' ==> c in UnstagedRead(e);
  }

  lemma ListsRightIff(entries: seq<Entry>)
    requires forall e :: e in entries ==> FromGit(e)
    ensures Each(entries, StagedRead) == Each(entries, StagedTrue)
            && Each(entries, UnstagedRead) == Each(entries, UnstagedTrue)
            <==> forall e :: e in entries ==> Recovered(e)
  {
    forall e | e in entries && IsChangeEntry(e)
      ensures ReadPath(e) == e.path <==> Legible(e)
      ensures e.path != ""
    {
      ReadPathIff(e);
    }
    hide Each, Legible, ReadPath;
    if Each(entries, StagedRead) == Each(entries, StagedTrue)
       && Each(entries, UnstagedRead) == Each(entries, UnstagedTrue) {
      forall e | e in entries
        ensures |StagedRead(e)| <= |StagedTrue(e)| && |UnstagedRead(e)| <= |UnstagedTrue(e)|
      {
        if IsChangeEntry(e) && ReadPath(e) != "" {
          NoDots(entries, e);
        }
      }
      EachAlike(entries, StagedRead, StagedTrue);
      EachAlike(entries, UnstagedRead, UnstagedTrue);
    }
    if forall e :: e in entries ==> Recovered(e) {
      EachSame(entries, StagedRead, StagedTrue);
      EachSame(entries, UnstagedRead, UnstagedTrue);
    }
  }

  /** The parser recovers the status that git printed if and only if every
      change entry changed on both sides and its path is read right. */
  lemma GitStatusIsReadIff(oid: string, r: Report)
    requires FromGitReport(oid, r)
    ensures var (ahead, behind) := if r.counts.Some? then r.counts.value else (0, 0);
            ParseStatus(PrintGit(oid, r)) == Some(Status(r.branch, r.upstream, ahead, behind, StagedOf(r.entries),
                                                         UnstagedOf(r.entries), UntrackedOf(r.entries)))
            <==> forall e :: e in r.entries ==> Recovered(e)
  {
    GitStatusReads(oid, r);
    ListsAreEach(r.entries);
    ListsRightIff(r.entries);
    EmptyUnit(Each(r.entries, StagedRead));
    EmptyUnit(Each(r.entries, UnstagedRead));
    EmptyUnit(UntrackedOf(r.entries));
    hide ParseStatus, PrintGit, Each, StagedOf, UnstagedOf, UntrackedOf, Recovered;
  }

  lemma WorktreeLine(meta: string, path: string)
    ensures PrintEntry(Dotted(Changed(' ', 'M', meta, path))) == "1 .M " + meta + " " + path
  {
    assert ['1', ' ', '.', 'M', ' '] == "1 .M ";
    AsTwoParts('1', '.', 'M', meta, path);
    hide ChangeLine;
  }

  lemma WorktreeEntry(meta: string, path: string)
    requires '\n' !in meta && path != "" && ' ' !in path && PrintedPath(path)
    ensures var e := Changed(' ', 'M', meta, path);
            && FromGit(e) && UntrackedOne(e) == []
            && StagedRead(e) == [FileChange(path, '.')] && UnstagedRead(e) == [FileChange(path, 'M')]
  {
    var e := Changed(' ', 'M', meta, path);
    assert FromGit(e);
    hide LineText, ReadPath;
    ReadPathIff(e);
  }

  lemma OneLineStatus(line: string)
    requires LineText(line)
    ensures ParseStatus(line + "\n") == Line(CLEAN, line)
  {
    hide Line, LineText, Lines;
    FoldOne(CLEAN, line);
    LinesOfUnlines([line]);
    OneUnlined(line);
  }

  lemma OneUnlined(line: string)
    ensures Unlines([line]) == line + "\n"
  {
    var none: seq<string> := [];
    assert [line][1..] == none;
    assert Unlines(none) == "";
    EmptyUnit(line + "\n");
  }

  lemma PlusClean(staged: seq<FileChange>, unstaged: seq<FileChange>)
    ensures Plus(CLEAN, staged, unstaged, []) == CLEAN.(staged := staged, unstaged := unstaged)
  {
    EmptyUnit(staged);
    EmptyUnit(unstaged);
  }

  /** A file changed in the worktree alone is reported as staged too. */
  lemma UnstagedIsStaged(meta: string, path: string)
    requires '\n' !in meta && path != "" && ' ' !in path && PrintedPath(path)
    ensures ParseStatus("1 .M " + meta + " " + path + "\n")
         == Some(CLEAN.(staged := [FileChange(path, '.')], unstaged := [FileChange(path, 'M')]))
  {
    hide *;
    var e := Changed(' ', 'M', meta, path);
    WorktreeEntry(meta, path);
    WorktreeLine(meta, path);
    DottedEntryIsRead(CLEAN, e);
    DottedIsALine(e);
    OneLineStatus("1 .M " + meta + " " + path);
    PlusClean([FileChange(path, '.')], [FileChange(path, 'M')]);
  }
}
