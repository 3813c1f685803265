/** Printing a status in the porcelain format and reading it back
    (gateway/src/routes/git.rs). */
module PorcelainRoundTrip {
  import opened Prelude
  import opened Porcelain

  /** An entry line. `meta` stands for the modes, object names and score between
      the status letters and the path. A blank letter means unchanged. */
  datatype Entry =
    | Changed(x: char, y: char, meta: string, path: string)
    | Renamed(x: char, y: char, meta: string, path: string, orig: string)
    | Unmerged(x: char, y: char, meta: string, path: string)
    | Untracked(path: string)
    | Ignored(path: string)

  datatype Report = Report(branch: Option<string>, upstream: Option<string>, counts: Option<(nat, nat)>,
                           entries: seq<Entry>)

  function Decimal(n: nat): string {
    var d := ('0' as int + n % 10) as char;
    if n < 10 then [d] else Decimal(n / 10) + [d]
  }

  function ChangeLine(kind: char, x: char, y: char, meta: string, tail: string): string {
    [kind, ' ', x, y, ' '] + meta + " " + tail
  }

  function PrintEntry(e: Entry): string {
    match e
    case Changed(x, y, meta, path) => ChangeLine('1', x, y, meta, path)
    case Renamed(x, y, meta, path, orig) => ChangeLine('2', x, y, meta, path + "\t" + orig)
    case Unmerged(x, y, meta, path) => ChangeLine('u', x, y, meta, path)
    case Untracked(path) => "? " + path
    case Ignored(path) => "! " + path
  }

  function PrintEntries(entries: seq<Entry>): seq<string> {
    if entries == [] then [] else [PrintEntry(entries[0])] + PrintEntries(entries[1..])
  }

  function PrintHeaders(r: Report): seq<string> {
    [HEAD + if r.branch.Some? then r.branch.value else DETACHED]
    + (if r.upstream.Some? then [UPSTREAM + r.upstream.value] else [])
    + if r.counts.Some?
      then [AHEAD_BEHIND + ("+" + Decimal(r.counts.value.0) + " " + ("-" + Decimal(r.counts.value.1)))]
      else []
  }

  function Unlines(lines: seq<string>): string {
    if lines == [] then "" else lines[0] + "\n" + Unlines(lines[1..])
  }

  function Print(r: Report): string {
    Unlines(PrintHeaders(r) + PrintEntries(r.entries))
  }

  // ------------------------------------------------ what is printable

  predicate LineText(s: string) {
    '\n' !in s && (s != "" ==> s[|s| - 1] != '\r')
  }

  predicate Letter(c: char) {
    ' ' <= c <= '~'
  }

  predicate PathText(s: string) {
    s != "" && ' ' !in s && '\t' !in s && '\n' !in s
  }

  predicate Printable(e: Entry) {
    && LineText(e.path)
    && ((e.Changed? || e.Renamed? || e.Unmerged?) ==>
          Letter(e.x) && Letter(e.y) && '\n' !in e.meta && PathText(e.path))
    && (e.Renamed? ==> LineText(e.orig) && ' ' !in e.orig)
  }

  predicate Trimmed(s: string) {
    s != "" ==> !White(s[0]) && !White(s[|s| - 1])
  }

  predicate PrintableReport(r: Report) {
    && (r.branch.Some? ==> LineText(r.branch.value) && Trimmed(r.branch.value) && r.branch.value != DETACHED)
    && (r.upstream.Some? ==> LineText(r.upstream.value) && Trimmed(r.upstream.value))
    && (r.counts.Some? ==> r.counts.value.0 <= I64_MAX && r.counts.value.1 <= I64_MAX)
    && forall e :: e in r.entries ==> Printable(e)
  }

  /** What an entry adds to a status. */
  function Added(s: Status, e: Entry): Status {
    match e
    case Untracked(path) => s.(untracked := s.untracked + [path])
    case Ignored(_) => s
    case _ =>
      s.(staged := s.staged + (if e.x != ' ' then [FileChange(e.path, e.x)] else []),
         unstaged := s.unstaged + if e.y != ' ' then [FileChange(e.path, e.y)] else [])
  }

  function StagedOf(entries: seq<Entry>): seq<FileChange> {
    if entries == [] then []
    else
      var e := entries[0];
      (if !e.Untracked? && !e.Ignored? && e.x != ' ' then [FileChange(e.path, e.x)] else []) + StagedOf(entries[1..])
  }

  function UnstagedOf(entries: seq<Entry>): seq<FileChange> {
    if entries == [] then []
    else
      var e := entries[0];
      (if !e.Untracked? && !e.Ignored? && e.y != ' ' then [FileChange(e.path, e.y)] else []) + UnstagedOf(entries[1..])
  }

  function UntrackedOf(entries: seq<Entry>): seq<string> {
    if entries == [] then []
    else (if entries[0].Untracked? then [entries[0].path] else []) + UntrackedOf(entries[1..])
  }

  function AddedAll(s: Status, entries: seq<Entry>): Status {
    s.(staged := s.staged + StagedOf(entries), unstaged := s.unstaged + UnstagedOf(entries),
       untracked := s.untracked + UntrackedOf(entries))
  }

  lemma AddedStep(s: Status, entries: seq<Entry>)
    requires entries != []
    ensures AddedAll(Added(s, entries[0]), entries[1..]) == AddedAll(s, entries)
  {
    var e := entries[0];
    if !e.Untracked? && !e.Ignored? {
      Associative(s.staged, if e.x != ' ' then [FileChange(e.path, e.x)] else [], StagedOf(entries[1..]));
      Associative(s.unstaged, if e.y != ' ' then [FileChange(e.path, e.y)] else [], UnstagedOf(entries[1..]));
    } else if e.Untracked? {
      Associative(s.untracked, [e.path], UntrackedOf(entries[1..]));
    }
    EmptyUnit(StagedOf(entries[1..]));
    EmptyUnit(UnstagedOf(entries[1..]));
    EmptyUnit(UntrackedOf(entries[1..]));
  }

  // ------------------------------------------------------ lines

  lemma {:induction false} UntilIs(s: string, stop: char -> bool, n: nat)
    requires n <= |s| && (forall i :: 0 <= i < n ==> !stop(s[i])) && (n < |s| ==> stop(s[n]))
    ensures Until(s, stop) == n
  {
    var m := Until(s, stop);
    hide Until;
    assert m < |s| ==> stop(s[m]);
    assert n < |s| ==> stop(s[n]);
  }

  lemma {:induction false} LinesOfUnlines(lines: seq<string>)
    requires forall l :: l in lines ==> LineText(l)
    ensures Lines(Unlines(lines)) == lines
  {
    if lines != [] {
      LinesOfUnlines(lines[1..]);
      assert lines[0] in lines;
      OneLine(lines[0], Unlines(lines[1..]));
      hide Lines;
      assert lines == [lines[0]] + lines[1..];
    }
  }

  lemma OneLine(front: string, rest: string)
    requires '\n' !in front
    ensures Lines(front + "\n" + rest) == [Chomp(front)] + Lines(rest)
  {
    var s := front + "\n" + rest;
    assert forall i :: 0 <= i < |front| ==> s[i] == front[i];
    assert s[|front|] == '\n';
    UntilIs(s, IsNewline, |front|);
    assert s[..|front|] == front && s[|front| + 1..] == rest;
  }

  /** A block that ends in a newline keeps its lines. */
  lemma {:induction false} LinesConcat(a: string, b: string)
    requires a != "" ==> a[|a| - 1] == '\n'
    ensures Lines(a + b) == Lines(a) + Lines(b)
    decreases |a|
  {
    if a == "" {
      assert a + b == b;
    } else {
      var n := Until(a, IsNewline);
      assert n < |a| by { assert IsNewline(a[|a| - 1]); }
      var front, rest := a[..n], a[n + 1..];
      assert IsNewline(a[n]);
      assert forall i :: 0 <= i < n ==> !IsNewline(a[i]);
      hide Lines, Until, Chomp;
      assert a == front + "\n" + rest;
      assert a + b == front + "\n" + (rest + b);
      LinesConcat(rest, b);
      OneLine(front, rest);
      OneLine(front, rest + b);
      Associative([Chomp(front)], Lines(rest), Lines(b));
    }
  }

  // ------------------------------------------------- entries

  lemma {:induction false} LengthBound(s: string)
    ensures |s| <= ByteLength(s)
  {
    if s != "" {
      LengthBound(s[1..]);
    }
  }

  lemma {:induction false} LastTokenIs(front: string, tail: string)
    requires ' ' !in tail
    ensures LastToken(front + " " + tail) == tail
  {
    var s := front + " " + tail;
    if tail == "" {
      assert s[|s| - 1] == ' ';
    } else {
      var t := tail[..|tail| - 1];
      assert s[..|s| - 1] == front + " " + t;
      assert s[|s| - 1] == tail[|tail| - 1];
      LastTokenIs(front, t);
      hide LastToken;
      assert tail == t + [tail[|tail| - 1]];
    }
  }

  lemma BeforeTabIs(path: string, tail: string)
    requires '\t' !in path && (tail == "" || tail[0] == '\t')
    ensures BeforeTab(path + tail) == path
  {
    var s := path + tail;
    assert forall i :: 0 <= i < |path| ==> s[i] == path[i];
    if tail != "" {
      assert s[|path|] == '\t';
    }
    UntilIs(s, IsTab, |path|);
  }

  lemma ChangeIsRead(s: Status, kind: char, x: char, y: char, meta: string, path: string, tail: string)
    requires kind == '1' || kind == '2' || kind == 'u'
    requires Letter(x) && Letter(y) && PathText(path)
    requires ' ' !in tail && (tail == "" || tail[0] == '\t')
    ensures Line(s, ChangeLine(kind, x, y, meta, path + tail))
         == Some(s.(staged := s.staged + (if x != ' ' then [FileChange(path, x)] else []),
                    unstaged := s.unstaged + if y != ' ' then [FileChange(path, y)] else []))
  {
    var front := [kind, ' ', x, y, ' '] + meta;
    var line := ChangeLine(kind, x, y, meta, path + tail);
    LettersAreRead(kind, x, y, meta, path + tail);
    hide StatusPair, ByteLength, LastToken, BeforeTab, ChangeLine, Trim, Tokens, AheadBehind;
    assert line == front + " " + (path + tail) by { AsTwoParts(kind, x, y, meta, path + tail); }
    LastTokenIs(front, path + tail);
    BeforeTabIs(path, tail);
    assert Line(s, line) == Change(s, line);
  }

  lemma AsTwoParts(kind: char, x: char, y: char, meta: string, tail: string)
    ensures ChangeLine(kind, x, y, meta, tail) == [kind, ' ', x, y, ' '] + meta + " " + tail
  {
  }

  lemma LettersAreRead(kind: char, x: char, y: char, meta: string, tail: string)
    requires kind == '1' || kind == '2' || kind == 'u'
    requires Letter(x) && Letter(y)
    ensures var line := ChangeLine(kind, x, y, meta, tail);
            && IsChange(line) && !("#" <= line) && !("? " <= line) && !("! " <= line)
            && !(HEAD <= line) && !(UPSTREAM <= line) && !(AHEAD_BEHIND <= line)
            && ByteLength(line) >= 4 && StatusPair(line) == Some((x, y))
  {
    var line := ChangeLine(kind, x, y, meta, tail);
    assert line[0] == kind && line[1] == ' ' && line[2] == x && line[3] == y;
    hide ByteLength, ChangeLine;
    LengthBound(line);
    NotAHeader(line);
  }

  lemma EntryIsRead(s: Status, e: Entry)
    requires Printable(e)
    ensures Line(s, PrintEntry(e)) == Some(Added(s, e))
  {
    match e
    case Changed(x, y, meta, path) =>
      assert path + "" == path;
      ChangeIsRead(s, '1', x, y, meta, path, "");
      hide Line, ChangeLine;
    case Renamed(x, y, meta, path, orig) =>
      assert path + "\t" + orig == path + ("\t" + orig);
      ChangeIsRead(s, '2', x, y, meta, path, "\t" + orig);
      hide Line, ChangeLine;
    case Unmerged(x, y, meta, path) =>
      assert path + "" == path;
      ChangeIsRead(s, 'u', x, y, meta, path, "");
      hide Line, ChangeLine;
    case Untracked(path) =>
      var line := "? " + path;
      assert line[2..] == path && line[0] == '?' && line[1] == ' ';
      hide Trim, Tokens, AheadBehind, Change;
      assert line == PrintEntry(e);
      assert Line(s, line) == Some(s.(untracked := s.untracked + [path]));
    case Ignored(path) =>
      var line := "! " + path;
      assert line[0] == '!' && line[1] == ' ';
      hide Trim, Tokens, AheadBehind, Change;
  }

  lemma EntryIsALine(e: Entry)
    requires Printable(e)
    ensures LineText(PrintEntry(e))
  {
    var l := PrintEntry(e);
    match e
    case Renamed(_, _, _, path, orig) =>
      assert orig != "" ==> l[|l| - 1] == orig[|orig| - 1];
      assert orig == "" ==> l[|l| - 1] == '\t';
    case _ =>
      assert e.path != "" ==> l[|l| - 1] == e.path[|e.path| - 1];
  }

  lemma {:induction false} EntriesAreRead(s: Status, entries: seq<Entry>)
    requires forall e :: e in entries ==> Printable(e)
    ensures Fold(s, PrintEntries(entries)) == Some(AddedAll(s, entries))
    ensures forall l :: l in PrintEntries(entries) ==> LineText(l)
    decreases |entries|
  {
    if entries != [] {
      var e := entries[0];
      assert e in entries;
      EntryIsRead(s, e);
      EntryIsALine(e);
      EntriesAreRead(Added(s, e), entries[1..]);
      AddedStep(s, entries);
      assert PrintEntries(entries)[1..] == PrintEntries(entries[1..]);
      hide Line, Added, AddedAll, PrintEntry, LineText;
    } else {
      EmptyUnit(s.staged);
      EmptyUnit(s.unstaged);
      EmptyUnit(s.untracked);
    }
  }

  // ------------------------------------------------- headers

  lemma {:induction false} TrimmedIsKept(s: string)
    requires Trimmed(s)
    ensures Trim(s) == s
  {
  }

  lemma {:induction false} DecimalIsRead(n: nat)
    ensures Decimal(n) != ""
    ensures forall i :: 0 <= i < |Decimal(n)| ==> Digit(Decimal(n)[i])
    ensures Number(Decimal(n)) == n
  {
    var s := Decimal(n);
    var d := ('0' as int + n % 10) as char;
    if n < 10 {
      assert s == [d] && s[..0] == "";
      assert Number(s[..0]) == 0;
    } else {
      DecimalIsRead(n / 10);
      assert s[..|s| - 1] == Decimal(n / 10);
    }
  }

  lemma CountIsRead(n: nat)
    requires n <= I64_MAX
    ensures ParseI64(Decimal(n)) == n
  {
    DecimalIsRead(n);
    assert Digit(Decimal(n)[0]);
    hide Decimal, Number;
  }

  lemma NoSpaceNoWhite(sign: char, n: nat)
    requires sign == '+' || sign == '-'
    ensures forall i :: 0 <= i < |[sign] + Decimal(n)| ==> !White(([sign] + Decimal(n))[i])
  {
    DecimalIsRead(n);
    var t := [sign] + Decimal(n);
    hide Decimal, Number;
    forall i | 0 <= i < |t|
      ensures !White(t[i])
    {
      if i > 0 {
        assert Digit(t[i]) by { assert t[i] == Decimal(n)[i - 1]; }
      }
    }
  }

  lemma TwoTokens(a: string, b: string)
    requires a != "" && b != ""
    requires (forall i :: 0 <= i < |a| ==> !White(a[i])) && (forall i :: 0 <= i < |b| ==> !White(b[i]))
    ensures Tokens(a + " " + b) == [a, b]
  {
    var s := a + " " + b;
    assert forall i :: 0 <= i < |a| ==> s[i] == a[i];
    assert s[|a|] == ' ';
    UntilIs(s, IsWhite, |a|);
    assert s[..|a|] == a && s[|a|..] == " " + b && (" " + b)[1..] == b;
    UntilIs(b, IsWhite, |b|);
    assert b[..|b|] == b && b[|b|..] == "";
    assert Tokens("") == [];
    assert Tokens(b) == [b] + [];
    assert Tokens(" " + b) == Tokens(b);
    assert Tokens(s) == [a] + Tokens(" " + b);
  }

  lemma CountsAreRead(s: Status, ahead: nat, behind: nat)
    requires ahead <= I64_MAX && behind <= I64_MAX
    ensures AheadBehind(s, Tokens("+" + Decimal(ahead) + " " + ("-" + Decimal(behind))))
         == s.(ahead := ahead, behind := behind)
  {
    NoSpaceNoWhite('+', ahead);
    NoSpaceNoWhite('-', behind);
    var a, b := "+" + Decimal(ahead), "-" + Decimal(behind);
    TwoTokens(a, b);
    CountIsRead(ahead);
    CountIsRead(behind);
    assert a[1..] == Decimal(ahead) && b[1..] == Decimal(behind);
    hide Decimal, Tokens, ParseI64;
    assert [a, b][1..] == [b];
    var none: seq<string> := [];
    assert [b][1..] == none;
    var s1 := s.(ahead := ahead);
    assert AheadBehindToken(s, a) == s1;
    assert AheadBehindToken(s1, b) == s.(ahead := ahead, behind := behind);
    assert AheadBehind(s1, [b]) == AheadBehind(AheadBehindToken(s1, b), []);
  }

  lemma HeadIsRead(s: Status, branch: Option<string>)
    requires branch.Some? ==> Trimmed(branch.value) && branch.value != DETACHED
    ensures Line(s, HEAD + if branch.Some? then branch.value else DETACHED) == Some(s.(branch := branch))
  {
    var v := if branch.Some? then branch.value else DETACHED;
    assert Trimmed(v);
    TrimmedIsKept(v);
    assert (HEAD + v)[|HEAD|..] == v;
    hide Trim, Tokens, AheadBehind, Change;
  }

  lemma UpstreamIsRead(s: Status, v: string)
    requires Trimmed(v)
    ensures Line(s, UPSTREAM + v) == Some(s.(upstream := Some(v)))
  {
    TrimmedIsKept(v);
    var line := UPSTREAM + v;
    assert line[|UPSTREAM|..] == v;
    assert line[9] == 'u' && HEAD[9] == 'h';
    assert !(HEAD <= line);
    hide Trim, Tokens, AheadBehind, Change;
  }

  lemma AheadBehindIsRead(s: Status, v: string)
    ensures Line(s, AHEAD_BEHIND + v) == Some(AheadBehind(s, Tokens(v)))
  {
    var line := AHEAD_BEHIND + v;
    assert line[|AHEAD_BEHIND|..] == v;
    assert line[9] == 'a' && HEAD[9] == 'h' && UPSTREAM[9] == 'u';
    assert !(HEAD <= line) && !(UPSTREAM <= line);
    hide Trim, Tokens, AheadBehind, Change;
  }

  lemma {:induction false} FoldConcat(s: Status, a: seq<string>, b: seq<string>)
    ensures var mid := Fold(s, a);
            Fold(s, a + b) == if mid.None? then None else Fold(mid.value, b)
    decreases |a|
  {
    if a == [] {
      assert a + b == b;
    } else {
      assert (a + b)[1..] == a[1..] + b;
      var next := Line(s, a[0]);
      if next.Some? {
        FoldConcat(next.value, a[1..], b);
      }
      hide Line;
    }
  }

  lemma FoldOne(s: Status, line: string)
    ensures Fold(s, [line]) == Line(s, line)
  {
    hide Line;
    assert [line][1..] == [];
  }

  function WithHeaders(s: Status, r: Report): Status {
    var s1 := s.(branch := r.branch);
    var s2 := if r.upstream.Some? then s1.(upstream := r.upstream) else s1;
    if r.counts.Some? then s2.(ahead := r.counts.value.0, behind := r.counts.value.1) else s2
  }

  lemma HeadersAreRead(s: Status, r: Report)
    requires PrintableReport(r)
    ensures Fold(s, PrintHeaders(r)) == Some(WithHeaders(s, r))
  {
    var head := [HEAD + if r.branch.Some? then r.branch.value else DETACHED];
    var up := if r.upstream.Some? then [UPSTREAM + r.upstream.value] else [];
    var text := if r.counts.Some?
                then "+" + Decimal(r.counts.value.0) + " " + ("-" + Decimal(r.counts.value.1)) else "";
    var ab := if r.counts.Some? then [AHEAD_BEHIND + text] else [];
    assert PrintHeaders(r) == head + up + ab;
    var s1 := s.(branch := r.branch);
    var s2 := if r.upstream.Some? then s1.(upstream := r.upstream) else s1;
    HeadIsRead(s, r.branch);
    FoldOne(s, head[0]);
    FoldConcat(s, head, up);
    FoldConcat(s, head + up, ab);
    if r.upstream.Some? {
      UpstreamIsRead(s1, r.upstream.value);
      FoldOne(s1, up[0]);
    }
    if r.counts.Some? {
      CountsAreRead(s2, r.counts.value.0, r.counts.value.1);
      AheadBehindIsRead(s2, text);
      FoldOne(s2, ab[0]);
    }
    hide Line, PrintHeaders, Decimal, Tokens, AheadBehind;
  }

  lemma HeadersAreLines(r: Report)
    requires PrintableReport(r)
    ensures forall l :: l in PrintHeaders(r) ==> LineText(l)
  {
    var v := if r.branch.Some? then r.branch.value else DETACHED;
    PrefixedLine(HEAD, v);
    if r.upstream.Some? {
      PrefixedLine(UPSTREAM, r.upstream.value);
    }
    if r.counts.Some? {
      CountsAreALine(r.counts.value.0, r.counts.value.1);
    }
    hide LineText, Decimal;
  }

  lemma CountsAreALine(a: nat, b: nat)
    ensures LineText(AHEAD_BEHIND + ("+" + Decimal(a) + " " + ("-" + Decimal(b))))
  {
    DecimalIsRead(a);
    DecimalIsRead(b);
    var text := "+" + Decimal(a) + " " + ("-" + Decimal(b));
    hide Decimal, Number;
    assert Digit(Decimal(b)[|Decimal(b)| - 1]);
    assert text[|text| - 1] == Decimal(b)[|Decimal(b)| - 1];
    assert '\n' !in Decimal(a) && '\n' !in Decimal(b) by { assert !Digit('\n'); }
    PrefixedLine(AHEAD_BEHIND, text);
  }

  lemma PrefixedLine(prefix: string, v: string)
    requires LineText(v) && '\n' !in prefix && prefix != "" && prefix[|prefix| - 1] == ' '
    ensures LineText(prefix + v)
  {
    var l := prefix + v;
    if v == "" {
      assert l == prefix;
    } else {
      assert l[|l| - 1] == v[|v| - 1];
    }
  }

  /** Reading a printed status recovers the branch, the upstream, both counts
      and, in order, every staged, unstaged and untracked path. */
  lemma PrintedIsRead(r: Report)
    requires PrintableReport(r)
    ensures var (ahead, behind) := if r.counts.Some? then r.counts.value else (0, 0);
            ParseStatus(Print(r)) == Some(Status(r.branch, r.upstream, ahead, behind,
                                                 StagedOf(r.entries), UnstagedOf(r.entries), UntrackedOf(r.entries)))
  {
    var headers, entries := PrintHeaders(r), PrintEntries(r.entries);
    var s := WithHeaders(CLEAN, r);
    HeadersAreRead(CLEAN, r);
    HeadersAreLines(r);
    EntriesAreRead(s, r.entries);
    EmptyUnit(StagedOf(r.entries));
    EmptyUnit(UnstagedOf(r.entries));
    EmptyUnit(UntrackedOf(r.entries));
    hide PrintHeaders, PrintEntries, LineText, Fold, StagedOf, UnstagedOf, UntrackedOf;
    LinesOfUnlines(headers + entries);
    FoldConcat(CLEAN, headers, entries);
  }

  // ------------------------------------------------- concatenated blocks

  predicate SetsBranch(line: string) {
    HEAD <= line
  }

  predicate SetsUpstream(line: string) {
    !(HEAD <= line) && UPSTREAM <= line
  }

  predicate HasSign(tokens: seq<string>, sign: string) {
    tokens != [] && (sign <= tokens[0] || HasSign(tokens[1..], sign))
  }

  /** The line has a count with this sign. */
  predicate SetsCount(line: string, sign: string) {
    && !(HEAD <= line) && !(UPSTREAM <= line) && AHEAD_BEHIND <= line
    && HasSign(Tokens(line[|AHEAD_BEHIND|..]), sign)
  }

  predicate Sets(lines: seq<string>, sets: string -> bool) {
    exists l :: l in lines && sets(l)
  }

  const BranchLine: string -> bool := l => SetsBranch(l)
  const UpstreamLine: string -> bool := l => SetsUpstream(l)
  const AheadLine: string -> bool := l => SetsCount(l, "+")
  const BehindLine: string -> bool := l => SetsCount(l, "-")

  /** Two results in a row: the lists are joined, and a header of the second
      block wins if the block has one. */
  function Joined(first: Status, second: Status, lines: seq<string>): Status {
    Status(if Sets(lines, BranchLine) then second.branch else first.branch,
           if Sets(lines, UpstreamLine) then second.upstream else first.upstream,
           if Sets(lines, AheadLine) then second.ahead else first.ahead,
           if Sets(lines, BehindLine) then second.behind else first.behind,
           first.staged + second.staged, first.unstaged + second.unstaged, first.untracked + second.untracked)
  }

  lemma {:induction false} AheadBehindJoins(s: Status, e: Status, tokens: seq<string>)
    ensures var s', e' := AheadBehind(s, tokens), AheadBehind(e, tokens);
            && s' == s.(ahead := s'.ahead, behind := s'.behind)
            && e' == e.(ahead := e'.ahead, behind := e'.behind)
            && (if HasSign(tokens, "+") then s'.ahead == e'.ahead else s'.ahead == s.ahead && e'.ahead == e.ahead)
            && (if HasSign(tokens, "-") then s'.behind == e'.behind else s'.behind == s.behind && e'.behind == e.behind)
    decreases |tokens|
  {
    if tokens != [] {
      hide ParseI64;
      AheadBehindJoins(AheadBehindToken(s, tokens[0]), AheadBehindToken(e, tokens[0]), tokens[1..]);
      SignsDiffer(tokens[0]);
    }
  }

  lemma SignsDiffer(t: string)
    ensures !("+" <= t && "-" <= t)
  {
    if "+" <= t {
      assert t[0] == '+';
    }
  }

  lemma SetsOne(line: string, sets: string -> bool)
    ensures Sets([line], sets) <==> sets(line)
  {
    assert line in [line];
  }

  lemma SetsCons(line: string, rest: seq<string>, sets: string -> bool)
    ensures Sets([line] + rest, sets) <==> Sets([line], sets) || Sets(rest, sets)
  {
    hide *;
    SetsOne(line, sets);
    if Sets([line] + rest, sets) { SetsSplit(line, rest, sets); }
    if Sets([line], sets) || Sets(rest, sets) { SetsWeaken(line, rest, sets); }
  }

  lemma SetsSplit(line: string, rest: seq<string>, sets: string -> bool)
    requires Sets([line] + rest, sets)
    ensures sets(line) || Sets(rest, sets)
  {
  }

  lemma SetsWeaken(line: string, rest: seq<string>, sets: string -> bool)
    requires Sets([line], sets) || Sets(rest, sets)
    ensures Sets([line] + rest, sets)
  {
    if Sets([line], sets) {
      assert line in [line] + rest;
    } else {
      var l :| l in rest && sets(l);
      assert l in [line] + rest;
    }
  }

  lemma ListsJoin(s: Status, one: Status, line: string)
    requires !SetsBranch(line) && !SetsUpstream(line) && !SetsCount(line, "+") && !SetsCount(line, "-")
    ensures Joined(s, one, [line])
         == s.(staged := s.staged + one.staged, unstaged := s.unstaged + one.unstaged,
               untracked := s.untracked + one.untracked)
  {
    SetsOne(line, BranchLine);
    SetsOne(line, UpstreamLine);
    SetsOne(line, AheadLine);
    SetsOne(line, BehindLine);
    hide SetsBranch, SetsUpstream, SetsCount, Sets;
  }

  lemma HeaderJoins(s: Status, line: string)
    requires "#" <= line
    ensures var alone := Line(CLEAN, line);
            Line(s, line) == if alone.None? then None else Some(Joined(s, alone.value, [line]))
  {
    SetsOne(line, BranchLine);
    SetsOne(line, UpstreamLine);
    SetsOne(line, AheadLine);
    SetsOne(line, BehindLine);
    if AHEAD_BEHIND <= line {
      AheadBehindJoins(s, CLEAN, Tokens(line[|AHEAD_BEHIND|..]));
    }
    EmptyUnit(s.staged);
    EmptyUnit(s.unstaged);
    EmptyUnit(s.untracked);
    hide Trim, Tokens, AheadBehind, Change, Sets, HasSign;
  }

  lemma ChangeJoins(s: Status, line: string)
    requires IsChange(line)
    ensures var alone := Change(CLEAN, line);
            && (alone.None? <==> Change(s, line).None?)
            && (alone.Some? ==>
                  Change(s, line) == Some(s.(staged := s.staged + alone.value.staged,
                                             unstaged := s.unstaged + alone.value.unstaged,
                                             untracked := s.untracked + alone.value.untracked)))
  {
    EmptyUnit(s.staged);
    EmptyUnit(s.unstaged);
    EmptyUnit(s.untracked);
    var alone := Change(CLEAN, line);
    if alone.Some? && ByteLength(line) >= 4 && BeforeTab(LastToken(line)) != "" {
      var xy, path := StatusPair(line).value, BeforeTab(LastToken(line));
      EmptyUnit(if xy.0 != ' ' then [FileChange(path, xy.0)] else []);
      EmptyUnit(if xy.1 != ' ' then [FileChange(path, xy.1)] else []);
    }
    hide StatusPair, ByteLength, LastToken, BeforeTab;
  }

  /** One line adds the same to any status. */
  lemma LineJoins(s: Status, line: string)
    ensures var alone := Line(CLEAN, line);
            Line(s, line) == if alone.None? then None else Some(Joined(s, alone.value, [line]))
  {
    if "#" <= line {
      HeaderJoins(s, line);
    } else {
      NotAHeader(line);
      EmptyUnit(s.staged);
      EmptyUnit(s.unstaged);
      EmptyUnit(s.untracked);
      if IsChange(line) {
        ChangeJoins(s, line);
      } else if "? " <= line {
        EmptyUnit([line[2..]]);
      }
      hide Trim, Tokens, AheadBehind, Change, Joined, SetsBranch, SetsUpstream, SetsCount;
      var alone := Line(CLEAN, line);
      if alone.Some? {
        ListsJoin(s, alone.value, line);
      }
    }
  }

  lemma NotAHeader(line: string)
    requires !("#" <= line)
    ensures !(HEAD <= line) && !(UPSTREAM <= line) && !(AHEAD_BEHIND <= line)
    ensures !SetsBranch(line) && !SetsUpstream(line) && !SetsCount(line, "+") && !SetsCount(line, "-")
  {
    assert HEAD[0] == '#' && UPSTREAM[0] == '#' && AHEAD_BEHIND[0] == '#';
    assert line != "" ==> line[0] != '#';
  }

  lemma JoinedTwice(s: Status, one: Status, rest: Status, line: string, lines: seq<string>)
    ensures Joined(Joined(s, one, [line]), rest, lines) == Joined(s, Joined(one, rest, lines), [line] + lines)
  {
    SetsCons(line, lines, BranchLine);
    SetsCons(line, lines, UpstreamLine);
    SetsCons(line, lines, AheadLine);
    SetsCons(line, lines, BehindLine);
    Associative(s.staged, one.staged, rest.staged);
    Associative(s.unstaged, one.unstaged, rest.unstaged);
    Associative(s.untracked, one.untracked, rest.untracked);
    hide Sets;
  }

  lemma NothingJoined(s: Status)
    ensures Joined(s, CLEAN, []) == s
  {
    EmptyUnit(s.staged);
    EmptyUnit(s.unstaged);
    EmptyUnit(s.untracked);
  }

  lemma {:induction false} FoldJoins(s: Status, lines: seq<string>)
    ensures var alone := Fold(CLEAN, lines);
            Fold(s, lines) == if alone.None? then None else Some(Joined(s, alone.value, lines))
    decreases |lines|
  {
    if lines == [] {
      NothingJoined(s);
    } else {
      var line, rest := lines[0], lines[1..];
      LineJoins(s, line);
      var one := Line(CLEAN, line);
      if one.Some? {
        FoldJoins(Joined(s, one.value, [line]), rest);
        FoldJoins(one.value, rest);
        var after := Fold(CLEAN, rest);
        if after.Some? {
          JoinedTwice(s, one.value, after.value, line, rest);
        }
      }
      hide Line, Joined;
      assert lines == [line] + rest;
    }
  }

  /** Reading two blocks one after the other joins their lists, and of each
      header the later one wins; a panic in either is a panic of the whole. */
  lemma BlocksJoin(a: string, b: string)
    requires a != "" ==> a[|a| - 1] == '\n'
    ensures var x, y := ParseStatus(a), ParseStatus(b);
            ParseStatus(a + b)
            == if x.None? || y.None? then None else Some(Joined(x.value, y.value, Lines(b)))
  {
    LinesConcat(a, b);
    FoldConcat(CLEAN, Lines(a), Lines(b));
    var x := ParseStatus(a);
    if x.Some? {
      FoldJoins(x.value, Lines(b));
    }
    hide Fold, Lines, Joined;
  }

  // ----------------------------------------------------- panics

  /** A byte position where a character begins or the text ends
      (`str::is_char_boundary`). */
  predicate Boundary(s: string, n: nat) {
    exists k :: 0 <= k <= |s| && ByteLength(s[..k]) == n
  }

  /** A change line whose two status bytes cannot be sliced out. */
  predicate CutLine(line: string) {
    IsChange(line) && ByteLength(line) >= 4 && !(Boundary(line, 2) && Boundary(line, 4))
  }

  lemma {:induction false} BytesSnoc(s: string, c: char)
    ensures ByteLength(s + [c]) == ByteLength(s) + ByteWidth(c)
  {
    if s == "" {
      assert s + [c] == [c] && [c][1..] == "";
      assert ByteLength("") == 0;
    } else {
      BytesSnoc(s[1..], c);
      assert (s + [c])[1..] == s[1..] + [c];
    }
  }

  lemma {:induction false} BytesGrow(s: string, j: nat, k: nat)
    requires j <= k <= |s|
    ensures ByteLength(s[..j]) + (k - j) <= ByteLength(s[..k])
  {
    if j < k {
      BytesGrow(s, j, k - 1);
      assert s[..k] == s[..k - 1] + [s[k - 1]];
      BytesSnoc(s[..k - 1], s[k - 1]);
      hide ByteLength;
    }
  }

  /** A position between two neighbouring character starts is no boundary. */
  lemma NoBoundaryInside(s: string, k: nat, n: nat)
    requires k < |s| && ByteLength(s[..k]) < n < ByteLength(s[..k + 1])
    ensures !Boundary(s, n)
  {
    forall j | 0 <= j <= |s|
      ensures ByteLength(s[..j]) != n
    {
      if j <= k {
        BytesGrow(s, j, k);
      } else {
        BytesGrow(s, k + 1, j);
      }
    }
  }

  lemma NextBoundary(s: string, k: nat)
    requires k < |s|
    ensures ByteLength(s[..k + 1]) == ByteLength(s[..k]) + ByteWidth(s[k])
    ensures Boundary(s, ByteLength(s[..k + 1]))
  {
    assert s[..k + 1] == s[..k] + [s[k]];
    BytesSnoc(s[..k], s[k]);
  }

  /** After `k` characters that end at byte `n`, the next two bytes end at a
      boundary when they are two characters or one. */
  lemma TwoMoreBytes(s: string, k: nat, n: nat)
    requires k < |s| && ByteLength(s[..k]) == n && ByteLength(s) >= n + 2
    ensures Boundary(s, n + 2)
       <==> ByteWidth(s[k]) == 2 || (ByteWidth(s[k]) == 1 && k + 1 < |s| && ByteWidth(s[k + 1]) == 1)
  {
    assert s[..|s|] == s;
    hide ByteLength, Boundary;
    NextBoundary(s, k);
    if ByteWidth(s[k]) == 1 {
      assert k + 1 < |s|;
      NextBoundary(s, k + 1);
      if ByteWidth(s[k + 1]) != 1 {
        NoBoundaryInside(s, k + 1, n + 2);
      }
    } else if ByteWidth(s[k]) > 2 {
      NoBoundaryInside(s, k, n + 2);
    }
  }

  lemma PairIffBoundaries(line: string)
    requires line != "" && ByteWidth(line[0]) == 1 && ByteLength(line) >= 4
    ensures StatusPair(line).None? <==> !(Boundary(line, 2) && Boundary(line, 4))
  {
    assert line[..|line|] == line && ByteLength(line[..0]) == 0;
    hide ByteLength, Boundary, ByteWidth;
    TwoMoreBytes(line, 0, 0);
    if Boundary(line, 2) {
      NextBoundary(line, 0);
      NextBoundary(line, 1);
      assert |line| > 2;
      TwoMoreBytes(line, 2, 2);
    }
  }

  lemma LinePanicsIffCut(s: Status, line: string)
    ensures Line(s, line).None? <==> CutLine(line)
  {
    if IsChange(line) {
      assert !("#" <= line) by { assert line[0] != '#'; }
      NotAHeader(line);
      if ByteLength(line) >= 4 {
        PairIffBoundaries(line);
      }
    }
    hide Trim, Tokens, AheadBehind, StatusPair, ByteLength, LastToken, BeforeTab, Boundary;
  }

  /** The parser panics exactly on outputs with a change line whose status
      bytes cut through a character. */
  lemma {:induction false} ParsePanicsIffCut(s: Status, lines: seq<string>)
    ensures Fold(s, lines).None? <==> exists l :: l in lines && CutLine(l)
    decreases |lines|
  {
    if lines != [] {
      LinePanicsIffCut(s, lines[0]);
      if Line(s, lines[0]).Some? {
        ParsePanicsIffCut(Line(s, lines[0]).value, lines[1..]);
      }
      hide Line, CutLine;
      assert lines == [lines[0]] + lines[1..];
      assert lines[0] in lines;
    }
  }

  /** Such outputs exist: a character of three bytes or more after the first
      blank. */
  lemma WideLetterPanics(c: char, rest: string)
    requires ByteWidth(c) >= 3 && '\n' !in rest
    ensures ParseStatus("1 " + [c] + rest) == None
  {
    var s := "1 " + [c] + rest;
    assert forall i :: 0 <= i < |s| ==> s[i] != '\n' by {
      assert forall i :: 3 <= i < |s| ==> s[i] == rest[i - 3];
    }
    UntilIs(s, IsNewline, |s|);
    assert Lines(s) == [s];
    assert ByteLength(s[..0]) == 0 && s[..|s|] == s;
    NextBoundary(s, 0);
    NextBoundary(s, 1);
    NextBoundary(s, 2);
    hide ByteLength, Lines;
    BytesGrow(s, 3, |s|);
    NoBoundaryInside(s, 2, 4);
    assert CutLine(s);
    ParsePanicsIffCut(CLEAN, [s]);
  }
}
