/** `git status --porcelain=v2 --branch`: `parse_status_v2` in
    gateway/src/routes/git.rs. */
module Porcelain {
  import opened Prelude

  datatype FileChange = FileChange(path: string, status: char)

  datatype Status = Status(branch: Option<string>, upstream: Option<string>, ahead: int, behind: int,
                           staged: seq<FileChange>, unstaged: seq<FileChange>, untracked: seq<string>)

  const CLEAN := Status(None, None, 0, 0, [], [], [])

  const HEAD := "# branch.head "
  const UPSTREAM := "# branch.upstream "
  const AHEAD_BEHIND := "# branch.ab "
  const DETACHED := "(detached)"

  // ------------------------------------------------- string library

  /** Unicode White_Space. */
  predicate White(c: char) {
    var n := c as int;
    || 0x09 <= n <= 0x0D || n == 0x20 || n == 0x85 || n == 0xA0 || n == 0x1680 || 0x2000 <= n <= 0x200A
    || n == 0x2028 || n == 0x2029 || n == 0x202F || n == 0x205F || n == 0x3000
  }

  function TrimStart(s: string): string {
    if s != "" && White(s[0]) then TrimStart(s[1..]) else s
  }

  function TrimEnd(s: string): string {
    if s != "" && White(s[|s| - 1]) then TrimEnd(s[..|s| - 1]) else s
  }

  function Trim(s: string): string {
    TrimEnd(TrimStart(s))
  }

  /** The length of the text up to the first character for which the test is
      true. */
  function Until(s: string, stop: char -> bool): (n: nat)
    ensures n <= |s|
    ensures n < |s| ==> stop(s[n])
    ensures forall i :: 0 <= i < n ==> !stop(s[i])
  {
    if s == "" || stop(s[0]) then 0 else 1 + Until(s[1..], stop)
  }

  const IsWhite: char -> bool := c => White(c)
  const IsNewline: char -> bool := c => c == '\n'
  const IsTab: char -> bool := c => c == '\t'

  /** `split_whitespace`. */
  function Tokens(s: string): seq<string>
    decreases |s|
  {
    if s == "" then []
    else if White(s[0]) then Tokens(s[1..])
    else
      var n := Until(s, IsWhite);
      [s[..n]] + Tokens(s[n..])
  }

  function Chomp(s: string): string {
    if s != "" && s[|s| - 1] == '\r' then s[..|s| - 1] else s
  }

  /** `lines`: a line ends in a newline, with or without a carriage return. */
  function Lines(s: string): seq<string>
    decreases |s|
  {
    if s == "" then []
    else
      var n := Until(s, IsNewline);
      if n == |s| then [s]
      else [Chomp(s[..n])] + Lines(s[n + 1..])
  }

  /** The last space-separated token. */
  function LastToken(s: string): (t: string)
    ensures ' ' !in t
  {
    if s == "" then ""
    else if s[|s| - 1] == ' ' then ""
    else LastToken(s[..|s| - 1]) + [s[|s| - 1]]
  }

  function BeforeTab(s: string): string {
    s[..Until(s, IsTab)]
  }

  predicate Digit(c: char) {
    '0' <= c <= '9'
  }

  function Number(s: string): nat {
    if s == "" then 0 else Number(s[..|s| - 1]) * 10 + if Digit(s[|s| - 1]) then s[|s| - 1] as int - '0' as int else 0
  }

  const I64_MAX := 0x7FFF_FFFF_FFFF_FFFF

  /** `str::parse::<i64>`, with 0 for an error. */
  function ParseI64(s: string): int {
    var negative := s != "" && s[0] == '-';
    var digits := if s != "" && (s[0] == '-' || s[0] == '+') then s[1..] else s;
    if digits == "" || (exists i :: 0 <= i < |digits| && !Digit(digits[i])) then 0
    else if Number(digits) > I64_MAX + (if negative then 1 else 0) then 0
    else if negative then 0 - Number(digits) else Number(digits)
  }

  function ByteWidth(c: char): nat {
    var n := c as int;
    if n < 0x80 then 1 else if n < 0x800 then 2 else if n < 0x1_0000 then 3 else 4
  }

  function ByteLength(s: string): nat {
    if s == "" then 0 else ByteWidth(s[0]) + ByteLength(s[1..])
  }

  // ---------------------------------------------------- one line

  function AheadBehindToken(s: Status, token: string): Status {
    if "+" <= token then s.(ahead := ParseI64(token[1..]))
    else if "-" <= token then s.(behind := ParseI64(token[1..]))
    else s
  }

  function AheadBehind(s: Status, tokens: seq<string>): Status
    decreases |tokens|
  {
    if tokens == [] then s else AheadBehind(AheadBehindToken(s, tokens[0]), tokens[1..])
  }

  /** The bytes 2 and 3 of a change line as characters, or None where the slice
      would cut a character, which panics. */
  function StatusPair(line: string): Option<(char, char)>
    requires line != "" && ByteWidth(line[0]) == 1 && ByteLength(line) >= 4
  {
    if |line| < 3 || ByteWidth(line[1]) != 1 then None
    else if ByteWidth(line[2]) == 2 then
      var n := line[2] as int;
      Some(((0xC0 + n / 64) as char, (0x80 + n % 64) as char))
    else if |line| > 3 && ByteWidth(line[2]) == 1 && ByteWidth(line[3]) == 1 then Some((line[2], line[3]))
    else None
  }

  predicate IsChange(line: string) {
    line != "" && (line[0] == '1' || line[0] == '2' || line[0] == 'u')
  }

  /** What a change line adds: the lists grow on the sides that are not blank. */
  function Change(s: Status, line: string): Option<Status>
    requires IsChange(line)
  {
    if ByteLength(line) < 4 then Some(s)
    else
      var xy := StatusPair(line);
      if xy.None? then None
      else
        var path := BeforeTab(LastToken(line));
        if path == "" then Some(s)
        else
          Some(s.(staged := s.staged + (if xy.value.0 != ' ' then [FileChange(path, xy.value.0)] else []),
                  unstaged := s.unstaged + if xy.value.1 != ' ' then [FileChange(path, xy.value.1)] else []))
  }

  /** What one line adds; None is a panic. */
  function Line(s: Status, line: string): Option<Status> {
    if HEAD <= line then
      var v := Trim(line[|HEAD|..]);
      Some(s.(branch := if v == DETACHED then None else Some(v)))
    else if UPSTREAM <= line then Some(s.(upstream := Some(Trim(line[|UPSTREAM|..]))))
    else if AHEAD_BEHIND <= line then Some(AheadBehind(s, Tokens(line[|AHEAD_BEHIND|..])))
    else if "#" <= line then Some(s)
    else if "? " <= line then Some(s.(untracked := s.untracked + [line[2..]]))
    else if "! " <= line then Some(s)
    else if IsChange(line) then Change(s, line)
    else Some(s)
  }

  function Fold(s: Status, lines: seq<string>): Option<Status>
    decreases |lines|
  {
    if lines == [] then Some(s)
    else
      var next := Line(s, lines[0]);
      if next.None? then None else Fold(next.value, lines[1..])
  }

  function ParseStatus(output: string): Option<Status> {
    Fold(CLEAN, Lines(output))
  }

  /** `parse_status_v2`. The result is None if a slice panics. */
  method ParseStatusV2(output: string) returns (r: Option<Status>)
    ensures r == ParseStatus(output)
  {
    hide ByteLength, StatusPair, LastToken, BeforeTab, Trim, Tokens, Lines;
    var s := CLEAN;
    var lines := Lines(output);
    assert lines[0..] == lines;
    for i := 0 to |lines|
      invariant Fold(s, lines[i..]) == ParseStatus(output)
    {
      var line := lines[i];
      ghost var before := s;
      assert lines[i..][1..] == lines[i + 1..];
      assert before.staged + [] == before.staged && before.unstaged + [] == before.unstaged;
      if HEAD <= line {
        var v := Trim(line[|HEAD|..]);
        s := s.(branch := if v == DETACHED then None else Some(v));
        continue;
      }
      if UPSTREAM <= line {
        s := s.(upstream := Some(Trim(line[|UPSTREAM|..])));
        continue;
      }
      if AHEAD_BEHIND <= line {
        s := ReadAheadBehind(s, line[|AHEAD_BEHIND|..]);
        continue;
      }
      if "#" <= line {
        continue;
      }
      if "? " <= line {
        s := s.(untracked := s.untracked + [line[2..]]);
        continue;
      }
      if "! " <= line {
        continue;
      }
      if IsChange(line) {
        if ByteLength(line) < 4 {
          continue;
        }
        var xy := StatusPair(line);
        if xy.None? {
          return None;
        }
        var path := BeforeTab(LastToken(line));
        if path == "" {
          continue;
        }
        if xy.value.0 != ' ' {
          s := s.(staged := s.staged + [FileChange(path, xy.value.0)]);
        }
        if xy.value.1 != ' ' {
          s := s.(unstaged := s.unstaged + [FileChange(path, xy.value.1)]);
        }
      }
    }
    r := Some(s);
  }

  method ReadAheadBehind(start: Status, text: string) returns (s: Status)
    ensures s == AheadBehind(start, Tokens(text))
  {
    var tokens := Tokens(text);
    s := start;
    assert tokens[0..] == tokens;
    for i := 0 to |tokens|
      invariant AheadBehind(s, tokens[i..]) == AheadBehind(start, tokens)
    {
      assert tokens[i..][1..] == tokens[i + 1..];
      if "+" <= tokens[i] {
        s := s.(ahead := ParseI64(tokens[i][1..]));
      } else if "-" <= tokens[i] {
        s := s.(behind := ParseI64(tokens[i][1..]));
      }
    }
  }
}
