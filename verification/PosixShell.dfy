/** A reader for the part of the POSIX shell language that the gateway's
    scripts use (POSIX.1-2017, Shell Command Language): token recognition
    (2.3), backslash and single quotes (2.2.1, 2.2.2), simple commands with
    leading assignments (2.9.1) and AND lists (2.9.3). Anything else, such as an
    expansion, another operator or a reserved word, makes the reader give up. */
module PosixShell {
  import opened Prelude

  datatype Char = Char(c: char, quoted: bool)

  type Word = seq<Char>

  datatype Token = AndIf | WordToken(word: Word)

  /** A simple command: its assignments, then its words, all unquoted. */
  datatype Simple = Simple(assigns: seq<(string, string)>, words: seq<string>)

  const NUL := 0 as char

  predicate Blank(c: char) {
    c == ' ' || c == '\t'
  }

  predicate Letter(c: char) {
    'a' <= c <= 'z' || 'A' <= c <= 'Z' || c == '_'
  }

  predicate Digit(c: char) {
    '0' <= c <= '9'
  }

  /** Characters that stand for themselves outside quotes, wherever they are
      in a word. */
  predicate Plain(c: char) {
    Letter(c) || Digit(c) || c in {'-', '=', '.', '/', ':', '+', ',', '@', '%'}
  }

  /** The end of input, or a character that ends an unquoted word. */
  predicate AtDelimiter(s: string) {
    s == "" || Blank(s[0]) || s[0] == '&'
  }

  /** Read a word, with quote removal but remembering what was quoted. */
  function ReadWord(s: string, inQuotes: bool, word: Word): (r: Option<(Word, string)>)
    ensures r.Some? ==> |r.value.1| <= |s|
    ensures r.Some? && !AtDelimiter(s) ==> |r.value.1| < |s|
    decreases |s|
  {
    if inQuotes then
      if s == "" || s[0] == NUL then None
      else if s[0] == '\'' then ReadWord(s[1..], false, word)
      else ReadWord(s[1..], true, word + [Char(s[0], true)])
    else if AtDelimiter(s) then Some((word, s))
    else if s[0] == '\'' then ReadWord(s[1..], true, word)
    else if s[0] == '\\' then
      if |s| < 2 || s[1] == '\n' || s[1] == NUL then None
      else ReadWord(s[2..], false, word + [Char(s[1], true)])
    else if Plain(s[0]) then ReadWord(s[1..], false, word + [Char(s[0], false)])
    else None
  }

  function Tokens(s: string): Option<seq<Token>>
    decreases |s|
  {
    if s == "" then Some([])
    else if Blank(s[0]) then Tokens(s[1..])
    else if s[0] == '&' then
      if |s| < 2 || s[1] != '&' then None else Prepend(AndIf, Tokens(s[2..]))
    else
      var w := ReadWord(s, false, []);
      if w.None? then None else Prepend(WordToken(w.value.0), Tokens(w.value.1))
  }

  function Prepend<T>(x: T, xs: Option<seq<T>>): Option<seq<T>> {
    if xs.None? then None else Some([x] + xs.value)
  }

  function Text(w: Word): (s: string)
    ensures |s| == |w|
  {
    seq(|w|, i requires 0 <= i < |w| => w[i].c)
  }

  predicate IsName(s: string) {
    && s != "" && Letter(s[0])
    && forall i | 0 <= i < |s| :: Letter(s[i]) || Digit(s[i])
  }

  /** The position of the first '=', quoted or not. */
  function FirstEquals(w: Word): (k: nat)
    ensures k <= |w|
    ensures k < |w| ==> w[k].c == '='
    ensures forall i | 0 <= i < k :: w[i].c != '='
  {
    if w == [] || w[0].c == '=' then 0 else 1 + FirstEquals(w[1..])
  }

  /** ASSIGNMENT_WORD: an unquoted name, then an unquoted '='. */
  predicate IsAssignment(w: Word) {
    var k := FirstEquals(w);
    k < |w| && (forall i | 0 <= i <= k :: !w[i].quoted) && IsName(Text(w[..k]))
  }

  const RESERVED := {"!", "{", "}", "case", "do", "done", "elif", "else", "esac", "fi", "for", "if", "in",
                     "then", "until", "while"}

  predicate IsReserved(w: Word) {
    (forall i | 0 <= i < |w| :: !w[i].quoted) && Text(w) in RESERVED
  }

  function Assignments(ws: seq<Word>): seq<(string, string)> {
    if ws == [] || !IsAssignment(ws[0]) then []
    else
      var k := FirstEquals(ws[0]);
      [(Text(ws[0][..k]), Text(ws[0][k + 1..]))] + Assignments(ws[1..])
  }

  /** The words after the leading assignments. */
  function Arguments(ws: seq<Word>): seq<string> {
    if ws == [] then []
    else if IsAssignment(ws[0]) then Arguments(ws[1..])
    else seq(|ws|, i requires 0 <= i < |ws| => Text(ws[i]))
  }

  function SimpleOf(ws: seq<Word>): Option<Simple> {
    if ws == [] || IsReserved(ws[0]) then None else Some(Simple(Assignments(ws), Arguments(ws)))
  }

  /** Simple commands separated by `&&`; `ws` are the words already read of
      the current one. */
  function AndList(ts: seq<Token>, ws: seq<Word>): Option<seq<Simple>>
    decreases |ts|
  {
    if ts == [] then
      var c := SimpleOf(ws);
      if c.None? then None else Some([c.value])
    else if ts[0].AndIf? then
      var c := SimpleOf(ws);
      if c.None? then None else Prepend(c.value, AndList(ts[1..], []))
    else AndList(ts[1..], ws + [ts[0].word])
  }

  /** The AND list that `sh -c` runs for this script. */
  function Read(script: string): Option<seq<Simple>> {
    var ts := Tokens(script);
    if ts.None? then None else AndList(ts.value, [])
  }
}

/** Printing scripts from words, and reading them back. */
module ShellPrinting {
  import opened Prelude
  import opened PosixShell

  // ------------------------------------------------------- quoting

  function Escape(s: string): string {
    if s == "" then ""
    else (if s[0] == '\'' then "'\\''" else [s[0]]) + Escape(s[1..])
  }

  function ShellQuote(s: string): string {
    "'" + Escape(s) + "'"
  }

  predicate NulFree(s: string) {
    NUL !in s
  }

  function Quoted(s: string): Word {
    seq(|s|, i requires 0 <= i < |s| => Char(s[i], true))
  }

  function Unquoted(s: string): Word {
    seq(|s|, i requires 0 <= i < |s| => Char(s[i], false))
  }

  /** An escaped quote closes the quotes, adds the quote, and reopens them. */
  lemma EscapedQuoteIsRead(more: string, w: Word)
    ensures ReadWord("'\\''" + more, true, w) == ReadWord(more, true, w + [Char('\'', true)])
  {
    var s := "'\\''" + more;
    var s1, s3 := "\\''" + more, "'" + more;
    assert s[1..] == s1 && s1[2..] == s3 && s3[1..] == more;
    assert ReadWord(s, true, w) == ReadWord(s1, false, w);
    assert ReadWord(s1, false, w) == ReadWord(s3, false, w + [Char('\'', true)]);
  }

  lemma {:induction false} EscapeIsRead(s: string, t: string, w: Word)
    requires NulFree(s)
    ensures ReadWord(Escape(s) + "'" + t, true, w) == ReadWord(t, false, w + Quoted(s))
    decreases |s|
  {
    hide *;
    if s == "" {
      NothingEscaped(t, w);
    } else {
      var w' := w + [Char(s[0], true)];
      EscapeStep(s, t, w);
      EscapeIsRead(s[1..], t, w');
      QuotedStep(s, w);
    }
  }

  lemma NothingEscaped(t: string, w: Word)
    ensures ReadWord(Escape("") + "'" + t, true, w) == ReadWord(t, false, w + Quoted(""))
  {
    assert (Escape("") + "'" + t)[1..] == t;
    assert w + Quoted("") == w;
  }

  lemma QuotedStep(s: string, w: Word)
    requires s != ""
    ensures w + Quoted(s) == w + [Char(s[0], true)] + Quoted(s[1..])
  {
  }

  lemma EscapeStep(s: string, t: string, w: Word)
    requires NulFree(s) && s != ""
    ensures NulFree(s[1..])
    ensures ReadWord(Escape(s) + "'" + t, true, w)
         == ReadWord(Escape(s[1..]) + "'" + t, true, w + [Char(s[0], true)])
  {
    var more := Escape(s[1..]) + "'" + t;
    if s[0] == '\'' {
      assert Escape(s) + "'" + t == "'\\''" + more;
      hide ReadWord;
      EscapedQuoteIsRead(more, w);
    } else {
      assert Escape(s) + "'" + t == [s[0]] + more;
      assert ([s[0]] + more)[1..] == more;
    }
  }

  /** A quoted string contributes exactly its characters, all quoted. */
  lemma QuoteIsRead(s: string, t: string, w: Word)
    requires NulFree(s)
    ensures ReadWord(ShellQuote(s) + t, false, w) == ReadWord(t, false, w + Quoted(s))
  {
    EscapeIsRead(s, t, w);
    var all := ShellQuote(s) + t;
    assert all[0] == '\'' && all[1..] == Escape(s) + "'" + t;
  }

  lemma {:induction false} PlainIsRead(s: string, t: string, w: Word)
    requires forall i | 0 <= i < |s| :: Plain(s[i])
    ensures ReadWord(s + t, false, w) == ReadWord(t, false, w + Unquoted(s))
    decreases |s|
  {
    if s == "" {
      assert s + t == t && w + Unquoted(s) == w;
    } else {
      assert (s + t)[1..] == s[1..] + t;
      assert w + Unquoted(s) == w + [Char(s[0], false)] + Unquoted(s[1..]);
      assert Plain(s[0]);
      PlainIsRead(s[1..], t, w + [Char(s[0], false)]);
    }
  }

  // --------------------------------------------------------- items

  /** A printed word. */
  datatype Item = Bare(s: string) | Quote(s: string) | Assign(name: string, value: string)

  function Print(i: Item): string {
    match i
    case Bare(s) => s
    case Quote(s) => ShellQuote(s)
    case Assign(name, value) => name + "=" + ShellQuote(value)
  }

  function WordOf(i: Item): Word {
    match i
    case Bare(s) => Unquoted(s)
    case Quote(s) => Quoted(s)
    case Assign(name, value) => Unquoted(name + "=") + Quoted(value)
  }

  predicate Readable(i: Item) {
    match i
    case Bare(s) => PlainText(s)
    case Quote(s) => NulFree(s)
    case Assign(name, value) => PlainText(name) && NulFree(value)
  }

  /** A text of characters that stand for themselves. */
  predicate PlainText(s: string) {
    s != "" && forall k | 0 <= k < |s| :: Plain(s[k])
  }

  lemma NamesArePlain(name: string)
    requires IsName(name)
    ensures PlainText(name)
  {
  }

  lemma ItemIsRead(i: Item, t: string)
    requires Readable(i) && AtDelimiter(t)
    ensures Print(i) != "" && !AtDelimiter(Print(i) + t)
    ensures ReadWord(Print(i) + t, false, []) == Some((WordOf(i), t))
  {
    match i
    case Bare(s) =>
      PlainIsRead(s, t, []);
      assert Plain(s[0]) && [] + Unquoted(s) == Unquoted(s);
    case Quote(s) =>
      QuoteIsRead(s, t, []);
      assert [] + Quoted(s) == Quoted(s);
    case Assign(name, value) =>
      var start, rest := name + "=", ShellQuote(value) + t;
      assert Print(i) + t == start + rest;
      PlainIsRead(start, rest, []);
      QuoteIsRead(value, t, Unquoted(start));
      assert [] + Unquoted(start) == Unquoted(start) && Plain(name[0]);
  }

  /** Words separated by single blanks. */
  function PrintItems(items: seq<Item>): string {
    if items == [] then ""
    else if |items| == 1 then Print(items[0])
    else Print(items[0]) + " " + PrintItems(items[1..])
  }

  lemma PrintItemsCons(i: Item, items: seq<Item>)
    ensures PrintItems([i] + items) == if items == [] then Print(i) else Print(i) + " " + PrintItems(items)
  {
    assert ([i] + items)[1..] == items;
  }

  function WordTokens(items: seq<Item>): seq<Token> {
    seq(|items|, i requires 0 <= i < |items| => WordToken(WordOf(items[i])))
  }

  function PrependAll<T>(xs: seq<T>, ys: Option<seq<T>>): Option<seq<T>> {
    if ys.None? then None else Some(xs + ys.value)
  }

  lemma BlankIsSkipped(t: string)
    ensures Tokens(" " + t) == Tokens(t)
  {
    assert (" " + t)[1..] == t;
  }

  lemma ItemIsToken(i: Item, t: string)
    requires Readable(i) && AtDelimiter(t)
    ensures Tokens(Print(i) + t) == Prepend(WordToken(WordOf(i)), Tokens(t))
  {
    hide ReadWord;
    ItemIsRead(i, t);
  }

  lemma PrependOneMore<T>(x: T, xs: seq<T>, ys: Option<seq<T>>)
    ensures Prepend(x, PrependAll(xs, ys)) == PrependAll([x] + xs, ys)
    ensures Prepend(x, ys) == PrependAll([x], ys)
  {
    if ys.Some? {
      assert [x] + (xs + ys.value) == [x] + xs + ys.value;
    }
  }

  lemma {:induction false} ItemsAreTokens(items: seq<Item>, t: string)
    requires items != [] && (forall i | 0 <= i < |items| :: Readable(items[i])) && AtDelimiter(t)
    ensures Tokens(PrintItems(items) + t) == PrependAll(WordTokens(items), Tokens(t))
    decreases |items|
  {
    hide Tokens, Readable, Print, WordOf, Prepend, PrependAll;
    var first := items[0];
    if |items| == 1 {
      ItemIsToken(first, t);
      PrependOneMore(WordToken(WordOf(first)), [], Tokens(t));
      assert WordTokens(items) == [WordToken(WordOf(first))];
    } else {
      var others := PrintItems(items[1..]) + t;
      assert PrintItems(items) + t == Print(first) + (" " + others);
      ItemIsToken(first, " " + others);
      BlankIsSkipped(others);
      ItemsAreTokens(items[1..], t);
      PrependOneMore(WordToken(WordOf(first)), WordTokens(items[1..]), Tokens(t));
      assert WordTokens(items) == [WordToken(WordOf(first))] + WordTokens(items[1..]);
    }
  }

  // ------------------------------------------------------ commands

  /** A printed command: its words, and whether a blank trails them. */
  datatype Command = Command(items: seq<Item>, padded: bool)

  predicate ReadableCommand(c: Command) {
    c.items != [] && forall i | 0 <= i < |c.items| :: Readable(c.items[i])
  }

  function PrintCommand(c: Command): string {
    PrintItems(c.items) + if c.padded then " " else ""
  }

  /** Commands separated by " && ". */
  function PrintCommands(cs: seq<Command>): string {
    if cs == [] then ""
    else if |cs| == 1 then PrintCommand(cs[0])
    else PrintCommand(cs[0]) + " && " + PrintCommands(cs[1..])
  }

  function Words(items: seq<Item>): seq<Word> {
    seq(|items|, i requires 0 <= i < |items| => WordOf(items[i]))
  }

  function SimpleCommands(cs: seq<Command>): Option<seq<Simple>> {
    if cs == [] then Some([])
    else
      var c := SimpleOf(Words(cs[0].items));
      if c.None? then None else Prepend(c.value, SimpleCommands(cs[1..]))
  }

  lemma CommandIsTokens(c: Command, t: string)
    requires ReadableCommand(c) && AtDelimiter(t)
    ensures Tokens(PrintCommand(c) + t) == PrependAll(WordTokens(c.items), Tokens(t))
  {
    hide Tokens, Readable, PrintItems, WordTokens;
    if c.padded {
      assert PrintCommand(c) + t == PrintItems(c.items) + (" " + t);
      ItemsAreTokens(c.items, " " + t);
      BlankIsSkipped(t);
    } else {
      assert PrintCommand(c) + t == PrintItems(c.items) + t;
      ItemsAreTokens(c.items, t);
    }
  }

  lemma {:induction false} WordsAccumulate(items: seq<Item>, ts: seq<Token>, ws: seq<Word>)
    ensures AndList(WordTokens(items) + ts, ws) == AndList(ts, ws + Words(items))
    decreases |items|
  {
    var all := WordTokens(items) + ts;
    if items == [] {
      assert all == ts && ws + Words(items) == ws;
    } else {
      assert all[0] == WordToken(WordOf(items[0])) && all[1..] == WordTokens(items[1..]) + ts;
      WordsAccumulate(items[1..], ts, ws + [WordOf(items[0])]);
      assert ws + Words(items) == ws + [WordOf(items[0])] + Words(items[1..]);
    }
  }

  lemma CommandsCons(c: Command, cs: seq<Command>)
    ensures PrintCommands([c] + cs)
         == if cs == [] then PrintCommand(c) else PrintCommand(c) + " && " + PrintCommands(cs)
    ensures SimpleCommands([c] + cs) ==
              if SimpleOf(Words(c.items)).None? then None
              else Prepend(SimpleOf(Words(c.items)).value, SimpleCommands(cs))
  {
    assert ([c] + cs)[1..] == cs;
  }

  /** A printed list reads back as its commands, in order. */
  lemma {:induction false} CommandsAreRead(cs: seq<Command>)
    requires cs != [] && forall c | c in cs :: ReadableCommand(c)
    ensures Read(PrintCommands(cs)) == SimpleCommands(cs)
    decreases |cs|
  {
    hide ReadWord, SimpleOf, PrintCommand, ReadableCommand, WordTokens, Words;
    var c := cs[0];
    if |cs| == 1 {
      CommandIsTokens(c, "");
      assert PrintCommand(c) + "" == PrintCommand(c) && Tokens("") == Some([]);
      WordsAccumulate(c.items, [], []);
      assert [] + Words(c.items) == Words(c.items);
      assert SimpleCommands(cs[1..]) == Some([]);
      assert forall x: Simple :: [x] + [] == [x];
    } else {
      var more := " && " + PrintCommands(cs[1..]);
      assert PrintCommands(cs) == PrintCommand(c) + more;
      CommandIsTokens(c, more);
      AndIsToken(PrintCommands(cs[1..]));
      CommandsAreRead(cs[1..]);
      var ts := Tokens(PrintCommands(cs[1..]));
      if ts.Some? {
        WordsAccumulate(c.items, [AndIf] + ts.value, []);
        assert [] + Words(c.items) == Words(c.items);
        assert ([AndIf] + ts.value)[1..] == ts.value;
      } else {
        TokensOfReadable(cs[1..]);
      }
    }
  }

  lemma AndIsToken(t: string)
    ensures Tokens(" && " + t) == Prepend(AndIf, Tokens(t))
  {
    assert "&& " + t == "&&" + (" " + t) && " && " + t == " " + ("&& " + t);
    assert ("&&" + (" " + t))[2..] == " " + t;
    assert Tokens("&&" + (" " + t)) == Prepend(AndIf, Tokens(" " + t));
    BlankIsSkipped("&& " + t);
    BlankIsSkipped(t);
  }

  lemma {:induction false} TokensOfReadable(cs: seq<Command>)
    requires cs != [] && forall c | c in cs :: ReadableCommand(c)
    ensures Tokens(PrintCommands(cs)).Some?
    decreases |cs|
  {
    hide ReadWord, PrintCommand, ReadableCommand;
    if |cs| == 1 {
      CommandIsTokens(cs[0], "");
      assert PrintCommand(cs[0]) + "" == PrintCommand(cs[0]) && Tokens("") == Some([]);
    } else {
      var more := " && " + PrintCommands(cs[1..]);
      assert PrintCommands(cs) == PrintCommand(cs[0]) + more;
      CommandIsTokens(cs[0], more);
      AndIsToken(PrintCommands(cs[1..]));
      TokensOfReadable(cs[1..]);
    }
  }

  // -------------------------------------------- the commands' meaning

  /** What an item is for the shell once quotes are removed. */
  function Meaning(i: Item): string {
    match i
    case Bare(s) => s
    case Quote(s) => s
    case Assign(name, value) => name + "=" + value
  }

  lemma WordText(i: Item)
    ensures Text(WordOf(i)) == Meaning(i)
  {
  }

  predicate NoEquals(s: string) {
    '=' !in s
  }

  /** Bare words without '=', and quoted words, are never assignments. */
  lemma NotAssignment(i: Item)
    requires (i.Bare? && NoEquals(i.s)) || i.Quote?
    ensures !IsAssignment(WordOf(i))
  {
    var w, k := WordOf(i), FirstEquals(WordOf(i));
    assert i.Bare? ==> forall j | 0 <= j < |w| :: w[j].c == i.s[j];
  }

  lemma AssignmentIsRead(name: string, value: string)
    requires IsName(name)
    ensures var w := WordOf(Assign(name, value));
            && IsAssignment(w) && !IsReserved(w)
            && Text(w[..FirstEquals(w)]) == name && Text(w[FirstEquals(w) + 1..]) == value
  {
    var w := WordOf(Assign(name, value));
    var k := FirstEquals(w);
    assert w[|name|] == Char('=', false);
    assert forall j | 0 <= j < |name| :: w[j].c == name[j] && (Letter(name[j]) || Digit(name[j]));
    assert k == |name|;
    assert Text(w[..k]) == name && Text(w[k + 1..]) == value;
    assert Text(w)[|name|] == '=';
  }

  /** With a name that is not one, the same text is an ordinary word. */
  lemma BadNameIsAWord(name: string, value: string)
    requires NoEquals(name) && !IsName(name)
    ensures var w := WordOf(Assign(name, value));
            !IsAssignment(w) && !IsReserved(w) && Text(w) == name + "=" + value
  {
    var w := WordOf(Assign(name, value));
    assert w[|name|] == Char('=', false);
    assert forall j | 0 <= j < |name| :: w[j].c == name[j] && name[j] != '=';
    assert FirstEquals(w) == |name|;
    assert Text(w[..|name|]) == name;
    assert Text(w)[|name|] == '=';
    assert Text(w) == name + "=" + value;
  }

  /** Assignments, then words: what such a command means. */
  lemma {:induction false} SimpleMeaning(assigns: seq<(string, string)>, items: seq<Item>)
    requires forall i | 0 <= i < |assigns| :: IsName(assigns[i].0)
    requires items != [] && forall i | 0 <= i < |items| :: items[i].Quote? || (items[i].Bare? && NoEquals(items[i].s))
    ensures var ws := Words(AssignItems(assigns) + items);
            Assignments(ws) == assigns && Arguments(ws) == Strings(items)
    decreases |assigns|
  {
    hide IsAssignment, FirstEquals, IsName, WordOf, Text, Strings;
    if assigns == [] {
      assert AssignItems(assigns) + items == items;
      WordsMeaning(items);
    } else {
      var a := assigns[0];
      var rest := AssignItems(assigns[1..]) + items;
      assert AssignItems(assigns) + items == [Assign(a.0, a.1)] + rest;
      AssignmentIsRead(a.0, a.1);
      SimpleMeaning(assigns[1..], items);
      assert Words([Assign(a.0, a.1)] + rest)[1..] == Words(rest);
      assert assigns == [(a.0, a.1)] + assigns[1..];
    }
  }

  lemma WordsMeaning(items: seq<Item>)
    requires items != [] && forall i | 0 <= i < |items| :: items[i].Quote? || (items[i].Bare? && NoEquals(items[i].s))
    ensures Assignments(Words(items)) == [] && Arguments(Words(items)) == Strings(items)
  {
    hide IsAssignment, FirstEquals, Text, WordOf;
    NotAssignment(items[0]);
    forall i | 0 <= i < |items|
      ensures Text(Words(items)[i]) == items[i].s
    {
      WordText(items[i]);
    }
  }

  function AssignItems(assigns: seq<(string, string)>): seq<Item> {
    seq(|assigns|, i requires 0 <= i < |assigns| => Assign(assigns[i].0, assigns[i].1))
  }

  function Strings(items: seq<Item>): seq<string>
    requires forall i | 0 <= i < |items| :: items[i].Quote? || items[i].Bare?
  {
    seq(|items|, i requires 0 <= i < |items| => items[i].s)
  }

  /** A command of literal words and quoted strings means those words. */
  lemma PlainCommand(items: seq<Item>)
    requires items != [] && forall i | 0 <= i < |items| :: items[i].Quote? || (items[i].Bare? && NoEquals(items[i].s))
    requires items[0].Bare? ==> items[0].s !in RESERVED
    ensures SimpleOf(Words(items)) == Some(Simple([], Strings(items)))
  {
    SimpleMeaning([], items);
    assert AssignItems([]) + items == items;
    NotReserved(items[0]);
  }

  lemma NotReserved(i: Item)
    requires i.Quote? || (i.Bare? && i.s !in RESERVED)
    ensures !IsReserved(WordOf(i))
  {
    WordText(i);
    if i.Quote? && i.s != "" {
      assert WordOf(i)[0].quoted;
    }
  }

  // -------------------------------------------- unreadable scripts

  lemma {:induction false} WordHoldsNoNul(s: string, inQuotes: bool, w: Word)
    requires ReadWord(s, inQuotes, w).Some? && NulFree(ReadWord(s, inQuotes, w).value.1)
    ensures NulFree(s)
    decreases |s|
  {
    if inQuotes {
      if s[0] == '\'' {
        WordHoldsNoNul(s[1..], false, w);
      } else {
        WordHoldsNoNul(s[1..], true, w + [Char(s[0], true)]);
      }
    } else if !AtDelimiter(s) {
      if s[0] == '\'' {
        WordHoldsNoNul(s[1..], true, w);
      } else if s[0] == '\\' {
        WordHoldsNoNul(s[2..], false, w + [Char(s[1], true)]);
        assert s == [s[0], s[1]] + s[2..];
      } else {
        WordHoldsNoNul(s[1..], false, w + [Char(s[0], false)]);
      }
    }
    if s != "" {
      assert s == [s[0]] + s[1..];
    }
  }

  lemma {:induction false} TokensHoldNoNul(s: string)
    requires Tokens(s).Some?
    ensures NulFree(s)
    decreases |s|
  {
    if s != "" {
      if Blank(s[0]) {
        TokensHoldNoNul(s[1..]);
        assert s == [s[0]] + s[1..];
      } else if s[0] == '&' {
        TokensHoldNoNul(s[2..]);
        assert s == [s[0], s[1]] + s[2..];
      } else {
        TokensHoldNoNul(ReadWord(s, false, []).value.1);
        WordHoldsNoNul(s, false, []);
      }
    }
  }

  lemma {:induction false} NulSurvivesQuoting(s: string)
    requires !NulFree(s)
    ensures NUL in ShellQuote(s)
  {
    assert s == [s[0]] + s[1..];
    if s[0] == NUL {
      assert Escape(s)[0] == NUL && ShellQuote(s)[1] == NUL;
    } else {
      NulSurvivesQuoting(s[1..]);
      var i :| 0 <= i < |ShellQuote(s[1..])| && ShellQuote(s[1..])[i] == NUL;
      var n := if s[0] == '\'' then 4 else 1;
      assert Escape(s)[n + i - 1] == Escape(s[1..])[i - 1];
      assert ShellQuote(s)[n + i] == NUL;
    }
  }

  predicate HoldsNul(i: Item) {
    match i
    case Bare(s) => false
    case Quote(s) => !NulFree(s)
    case Assign(name, value) => !NulFree(value)
  }

  lemma {:induction false} NulSurvivesItems(items: seq<Item>, i: nat)
    requires i < |items| && HoldsNul(items[i])
    ensures NUL in PrintItems(items)
    decreases |items|
  {
    hide PrintItems, ShellQuote;
    PrintItemsCons(items[0], items[1..]);
    assert items == [items[0]] + items[1..];
    if i == 0 {
      NulSurvivesQuoting(if items[0].Quote? then items[0].s else items[0].value);
    } else {
      NulSurvivesItems(items[1..], i - 1);
    }
  }

  lemma {:induction false} NulSurvivesPrinting(cs: seq<Command>, c: Command, i: nat)
    requires c in cs && i < |c.items| && HoldsNul(c.items[i])
    ensures NUL in PrintCommands(cs)
    decreases |cs|
  {
    hide PrintCommands, PrintItems;
    CommandsCons(cs[0], cs[1..]);
    assert cs == [cs[0]] + cs[1..];
    if cs[0] == c {
      NulSurvivesItems(c.items, i);
    } else {
      NulSurvivesPrinting(cs[1..], c, i);
    }
  }

  // ------------------------------------- lists of literal and quoted words

  /** A command of literal words and quoted strings, starting with a literal
      that is not reserved. */
  predicate Templated(c: Command) {
    && c.items != [] && c.items[0].Bare? && c.items[0].s !in RESERVED
    && forall i | 0 <= i < |c.items| ::
         c.items[i].Quote? || (c.items[i].Bare? && NoEquals(c.items[i].s) && Readable(c.items[i]))
  }

  function Run(c: Command): Simple
    requires Templated(c)
  {
    Simple([], Strings(c.items))
  }

  function Runs(cs: seq<Command>): seq<Simple>
    requires forall c | c in cs :: Templated(c)
  {
    seq(|cs|, i requires 0 <= i < |cs| => Run(cs[i]))
  }

  predicate QuotesAreNulFree(cs: seq<Command>) {
    forall c | c in cs :: forall i | 0 <= i < |c.items| :: !HoldsNul(c.items[i])
  }

  lemma TemplateMeans(c: Command)
    requires Templated(c)
    ensures SimpleOf(Words(c.items)) == Some(Run(c))
  {
    PlainCommand(c.items);
    hide SimpleOf, Words, Strings, Readable;
  }

  lemma RunsCons(cs: seq<Command>)
    requires cs != [] && forall c | c in cs :: Templated(c)
    ensures Templated(cs[0])
    ensures Runs(cs) == [Run(cs[0])] + Runs(cs[1..])
  {
    hide Templated, Run;
  }

  lemma {:induction false} TemplatesMean(cs: seq<Command>)
    requires forall c | c in cs :: Templated(c)
    ensures SimpleCommands(cs) == Some(Runs(cs))
    decreases |cs|
  {
    hide Templated, SimpleOf, Words, Run;
    if cs == [] {
      assert Runs(cs) == [];
    } else {
      hide Runs;
      RunsCons(cs);
      TemplateMeans(cs[0]);
      TemplatesMean(cs[1..]);
    }
  }

  /** A templated list is read as exactly its words when no quoted string holds
      a NUL, and not at all otherwise. */
  lemma TemplatesAreRead(cs: seq<Command>)
    requires cs != [] && forall c | c in cs :: Templated(c)
    ensures Read(PrintCommands(cs)) == if QuotesAreNulFree(cs) then Some(Runs(cs)) else None
  {
    if QuotesAreNulFree(cs) {
      TemplatesMean(cs);
      forall c | c in cs
        ensures ReadableCommand(c)
      {
        assert forall i | 0 <= i < |c.items| :: !HoldsNul(c.items[i]);
      }
      hide Read, SimpleCommands, PrintCommands, Templated;
      CommandsAreRead(cs);
    } else {
      var c :| c in cs && !(forall i | 0 <= i < |c.items| :: !HoldsNul(c.items[i]));
      var i :| 0 <= i < |c.items| && HoldsNul(c.items[i]);
      hide Tokens, AndList, PrintCommands, Templated;
      NulSurvivesPrinting(cs, c, i);
      if Tokens(PrintCommands(cs)).Some? {
        TokensHoldNoNul(PrintCommands(cs));
      }
    }
  }
}
