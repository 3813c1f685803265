/** The command builder of gateway/src/routes/exec.rs, read back by a POSIX
    shell. */
module Exec {
  import opened Prelude
  import opened PosixShell
  import opened ShellPrinting

  type Env = seq<(string, string)>

  function EnvPart(env: Env): string {
    if env == [] then "" else env[0].0 + "=" + ShellQuote(env[0].1) + " " + EnvPart(env[1..])
  }

  function ArgsPart(args: seq<string>): string {
    if args == [] then "" else " " + ShellQuote(args[0]) + ArgsPart(args[1..])
  }

  function CdPart(cwd: Option<string>): string {
    if cwd.Some? then "cd " + ShellQuote(cwd.value) + " && " else ""
  }

  function Script(cmd: string, args: seq<string>, cwd: Option<string>, env: Env): string {
    CdPart(cwd) + EnvPart(env) + ShellQuote(cmd) + ArgsPart(args)
  }

  /** The vector for kube exec, with the environment in this order. */
  function Argv(cmd: string, args: seq<string>, cwd: Option<string>, env: Env): seq<string> {
    if cwd.None? && env == [] then [cmd] + args else ["sh", "-c", Script(cmd, args, cwd, env)]
  }

  // ------------------------------------------------------- the builder

  /** `shell_quote`. */
  method BuildQuoted(s: string) returns (out: string)
    ensures out == ShellQuote(s)
  {
    out := "'";
    for i := 0 to |s|
      invariant out + Escape(s[i..]) == "'" + Escape(s)
    {
      assert s[i..][1..] == s[i + 1..];
      if s[i] == '\'' {
        out := out + "'\\''";
      } else {
        out := out + [s[i]];
      }
    }
    assert out + Escape("") == out;
    out := out + "'";
  }

  /** The order lists every entry of the map once. */
  ghost predicate Lists(order: Env, env: map<string, string>) {
    && (forall i | 0 <= i < |order| :: order[i].0 in env && env[order[i].0] == order[i].1)
    && (forall i, j | 0 <= i < j < |order| :: order[i].0 != order[j].0)
    && (forall k | k in env :: exists i :: 0 <= i < |order| && order[i].0 == k)
  }

  /** The same for the entries whose keys are not waiting. */
  ghost predicate ListsAllBut(order: Env, env: map<string, string>, waiting: set<string>) {
    && (forall i | 0 <= i < |order| :: order[i].0 in env && order[i].0 !in waiting && env[order[i].0] == order[i].1)
    && (forall i, j | 0 <= i < j < |order| :: order[i].0 != order[j].0)
    && (forall k | k in env && k !in waiting :: exists i :: 0 <= i < |order| && order[i].0 == k)
  }

  lemma ListsOneMore(order: Env, env: map<string, string>, waiting: set<string>, k: string)
    requires ListsAllBut(order, env, waiting) && k in waiting && k in env
    ensures ListsAllBut(order + [(k, env[k])], env, waiting - {k})
  {
    var more := order + [(k, env[k])];
    forall k' | k' in env && k' !in waiting - {k}
      ensures exists i :: 0 <= i < |more| && more[i].0 == k'
    {
      if k' == k {
        assert more[|order|].0 == k';
      } else {
        var i :| 0 <= i < |order| && order[i].0 == k';
        assert more[i].0 == k';
      }
    }
  }

  /** `build_command`. A HashMap is walked in some order. */
  method BuildCommand(cmd: string, args: seq<string>, cwd: Option<string>, env: map<string, string>)
    returns (argv: seq<string>)
    ensures exists order :: Lists(order, env) && argv == Argv(cmd, args, cwd, order)
  {
    hide ShellQuote;
    if cwd.None? && env == map[] {
      assert Lists([], env);
      return [cmd] + args;
    }
    var script := "";
    ghost var order: Env;
    if cwd.Some? {
      script := script + "cd ";
      var dir := BuildQuoted(cwd.value);
      script := script + dir;
      script := script + " && ";
    }
    assert script == CdPart(cwd);
    script, order := AppendEnv(script, env);
    if env != map[] {
      var k :| k in env;
      assert order != [];
    }
    var quoted := BuildQuoted(cmd);
    script := script + quoted;
    script := AppendArgs(script, args);
    argv := ["sh", "-c", script];
    assert Lists(order, env) && argv == Argv(cmd, args, cwd, order);
  }

  /** The loop over the environment. */
  method AppendEnv(script: string, env: map<string, string>) returns (out: string, ghost order: Env)
    ensures Lists(order, env)
    ensures out == script + EnvPart(order)
  {
    hide ShellQuote, ListsAllBut;
    out, order := script, [];
    var keys := env.Keys;
    assert ListsAllBut(order, env, keys) by { NothingListed(env); }
    while keys != {}
      invariant keys <= env.Keys && ListsAllBut(order, env, keys)
      invariant out == script + EnvPart(order)
      decreases keys
    {
      var k :| k in keys;
      out := out + k;
      out := out + "=";
      var val := BuildQuoted(env[k]);
      out := out + val;
      out := out + " ";
      EnvPartGrows(order, k, env[k]);
      ListsOneMore(order, env, keys, k);
      order := order + [(k, env[k])];
      keys := keys - {k};
    }
    assert Lists(order, env) by { EverythingListed(order, env); }
  }

  lemma NothingListed(env: map<string, string>)
    ensures ListsAllBut([], env, env.Keys)
  {
  }

  lemma EverythingListed(order: Env, env: map<string, string>)
    requires ListsAllBut(order, env, {})
    ensures Lists(order, env)
  {
  }

  /** The loop over the arguments. */
  method AppendArgs(script: string, args: seq<string>) returns (out: string)
    ensures out == script + ArgsPart(args)
  {
    hide ShellQuote;
    out := script;
    assert args[0..] == args;
    for i := 0 to |args|
      invariant out + ArgsPart(args[i..]) == script + ArgsPart(args)
    {
      assert args[i..][1..] == args[i + 1..];
      out := out + " ";
      var arg := BuildQuoted(args[i]);
      out := out + arg;
    }
    assert out + ArgsPart([]) == out;
  }

  lemma {:induction false} EnvPartGrows(env: Env, k: string, v: string)
    ensures EnvPart(env + [(k, v)]) == EnvPart(env) + k + "=" + ShellQuote(v) + " "
  {
    hide ShellQuote;
    if env == [] {
      assert env + [(k, v)] == [(k, v)];
      assert EnvPart([(k, v)][1..]) == "";
    } else {
      EnvPartGrows(env[1..], k, v);
      assert (env + [(k, v)])[1..] == env[1..] + [(k, v)];
    }
  }

  // ---------------------------------------------------- reading it back

  /** What the script should run: an optional cd, then the command. */
  function Intended(cmd: string, args: seq<string>, cwd: Option<string>, env: Env): seq<Simple> {
    (if cwd.Some? then [Simple([], ["cd", cwd.value])] else []) + [Simple(env, [cmd] + args)]
  }

  /** Every environment name is a POSIX name, and no string holds a NUL. */
  predicate Expressible(cmd: string, args: seq<string>, cwd: Option<string>, env: Env) {
    && (forall i | 0 <= i < |env| :: IsName(env[i].0) && NulFree(env[i].1))
    && NulFree(cmd) && (forall i | 0 <= i < |args| :: NulFree(args[i]))
    && (cwd.Some? ==> NulFree(cwd.value))
  }

  function QuoteItems(words: seq<string>): seq<Item> {
    seq(|words|, i requires 0 <= i < |words| => Quote(words[i]))
  }

  function CommandItems(cmd: string, args: seq<string>, env: Env): seq<Item> {
    AssignItems(env) + QuoteItems([cmd] + args)
  }

  function Commands(cmd: string, args: seq<string>, cwd: Option<string>, env: Env): seq<Command> {
    (if cwd.Some? then [Command([Bare("cd"), Quote(cwd.value)], false)] else [])
    + [Command(CommandItems(cmd, args, env), false)]
  }

  lemma {:induction false} ArgsArePrinted(cmd: string, args: seq<string>)
    ensures PrintItems(QuoteItems([cmd] + args)) == ShellQuote(cmd) + ArgsPart(args)
    decreases |args|
  {
    hide PrintItems, ShellQuote;
    if args == [] {
      assert QuoteItems([cmd] + args) == [Quote(cmd)] + [];
      PrintItemsCons(Quote(cmd), []);
      assert ShellQuote(cmd) + "" == ShellQuote(cmd);
    } else {
      ArgsArePrinted(args[0], args[1..]);
      assert args == [args[0]] + args[1..];
      assert QuoteItems([cmd] + args) == [Quote(cmd)] + QuoteItems(args);
      PrintItemsCons(Quote(cmd), QuoteItems(args));
    }
  }

  lemma {:induction false} EnvIsPrinted(env: Env, items: seq<Item>)
    requires items != []
    ensures PrintItems(AssignItems(env) + items) == EnvPart(env) + PrintItems(items)
    decreases |env|
  {
    hide PrintItems, ShellQuote;
    if env == [] {
      assert AssignItems(env) + items == items;
    } else {
      EnvIsPrinted(env[1..], items);
      var rest := AssignItems(env[1..]) + items;
      assert AssignItems(env) + items == [Assign(env[0].0, env[0].1)] + rest;
      PrintItemsCons(Assign(env[0].0, env[0].1), rest);
    }
  }

  lemma LastIsPrinted(cmd: string, args: seq<string>, env: Env)
    ensures PrintCommand(Command(CommandItems(cmd, args, env), false))
         == EnvPart(env) + ShellQuote(cmd) + ArgsPart(args)
  {
    hide ShellQuote, EnvPart, ArgsPart, PrintItems, AssignItems;
    EnvIsPrinted(env, QuoteItems([cmd] + args));
    hide QuoteItems;
    ArgsArePrinted(cmd, args);
    assert EnvPart(env) + (ShellQuote(cmd) + ArgsPart(args)) == EnvPart(env) + ShellQuote(cmd) + ArgsPart(args);
  }

  lemma ScriptIsPrinted(cmd: string, args: seq<string>, cwd: Option<string>, env: Env)
    ensures Script(cmd, args, cwd, env) == PrintCommands(Commands(cmd, args, cwd, env))
  {
    hide ShellQuote, EnvPart, ArgsPart, PrintCommand, PrintCommands, CommandItems, CdPart;
    LastIsPrinted(cmd, args, env);
    var last := Command(CommandItems(cmd, args, env), false);
    LastAlone(last);
    NoCd(cwd);
    if cwd.Some? {
      CdIsPrinted(cwd.value);
      CommandsCons(Command([Bare("cd"), Quote(cwd.value)], false), [last]);
    }
    CdIsInFront(cwd, EnvPart(env), ShellQuote(cmd), ArgsPart(args));
  }

  lemma LastAlone(last: Command)
    ensures PrintCommands([last]) == PrintCommand(last)
    ensures [] + [last] == [last]
  {
    hide PrintCommand;
    CommandsCons(last, []);
    assert [last] + [] == [last];
  }

  lemma CdIsInFront(cwd: Option<string>, env: string, cmd: string, args: string)
    ensures CdPart(cwd) + env + cmd + args == CdPart(cwd) + (env + cmd + args)
    ensures cwd.None? ==> CdPart(cwd) + (env + cmd + args) == env + cmd + args
  {
    hide CdPart;
    Associative4(CdPart(cwd), env, cmd, args);
    assert cwd.None? ==> CdPart(cwd) == "" by { NoCd(cwd); }
    EmptyUnit(env + cmd + args);
  }

  lemma NoCd(cwd: Option<string>)
    ensures cwd.None? ==> CdPart(cwd) == ""
    ensures cwd.Some? ==> CdPart(cwd) == "cd " + ShellQuote(cwd.value) + " && "
  {
  }

  lemma CdIsPrinted(dir: string)
    ensures PrintCommand(Command([Bare("cd"), Quote(dir)], false)) == "cd " + ShellQuote(dir)
  {
    hide ShellQuote, PrintItems;
    PrintItemsCons(Quote(dir), []);
    assert [Quote(dir)] + [] == [Quote(dir)];
    PrintItemsCons(Bare("cd"), [Quote(dir)]);
    assert [Bare("cd")] + [Quote(dir)] == [Bare("cd"), Quote(dir)];
  }

  lemma CommandsMean(cmd: string, args: seq<string>, cwd: Option<string>, env: Env)
    requires Expressible(cmd, args, cwd, env)
    ensures SimpleCommands(Commands(cmd, args, cwd, env)) == Some(Intended(cmd, args, cwd, env))
    ensures forall c | c in Commands(cmd, args, cwd, env) :: ReadableCommand(c)
  {
    hide SimpleOf, Words, ReadableCommand, SimpleCommands;
    var last := Command(CommandItems(cmd, args, env), false);
    var simple := Simple(env, [cmd] + args);
    LastMeans(cmd, args, env);
    assert SimpleCommands([]) == Some([]) by { NoCommands(); }
    CommandsCons(last, []);
    assert [last] + [] == [last] && [simple] + [] == [simple];
    if cwd.Some? {
      CdMeans(cwd.value);
      CommandsCons(Command([Bare("cd"), Quote(cwd.value)], false), [last]);
    } else {
      assert Commands(cmd, args, cwd, env) == [last] && Intended(cmd, args, cwd, env) == [simple];
    }
  }

  lemma NoCommands()
    ensures SimpleCommands([]) == Some([])
  {
  }

  lemma LastMeans(cmd: string, args: seq<string>, env: Env)
    requires Expressible(cmd, args, None, env)
    ensures SimpleOf(Words(CommandItems(cmd, args, env))) == Some(Simple(env, [cmd] + args))
    ensures ReadableCommand(Command(CommandItems(cmd, args, env), false))
  {
    hide Words, IsReserved, Assignments, Arguments, IsName, PlainText;
    forall i | 0 <= i < |env|
      ensures PlainText(env[i].0)
    {
      NamesArePlain(env[i].0);
    }
    var quoted := QuoteItems([cmd] + args);
    SimpleMeaning(env, quoted);
    FirstWordIsNotReserved(cmd, args, env);
    assert Strings(quoted) == [cmd] + args;
    SomeWord(CommandItems(cmd, args, env));
  }

  lemma SomeWord(items: seq<Item>)
    ensures |Words(items)| == |items|
  {
  }

  lemma FirstWordIsNotReserved(cmd: string, args: seq<string>, env: Env)
    requires forall i | 0 <= i < |env| :: IsName(env[i].0)
    ensures !IsReserved(Words(CommandItems(cmd, args, env))[0])
  {
    if env == [] {
      NotReserved(Quote(cmd));
    } else {
      AssignmentIsRead(env[0].0, env[0].1);
    }
  }

  /** `cd` and a quoted directory. */
  lemma CdMeans(dir: string)
    ensures var items := [Bare("cd"), Quote(dir)];
            && SimpleOf(Words(items)) == Some(Simple([], ["cd", dir]))
            && (NulFree(dir) ==> ReadableCommand(Command(items, false)))
  {
    var items := [Bare("cd"), Quote(dir)];
    PlainCommand(items);
    assert Strings(items) == ["cd", dir];
  }

  /** The shell runs exactly the intended list whenever it can be expressed,
      whatever order the environment is listed in. */
  lemma ScriptRunsIntended(cmd: string, args: seq<string>, cwd: Option<string>, env: Env)
    requires Expressible(cmd, args, cwd, env)
    ensures Read(Script(cmd, args, cwd, env)) == Some(Intended(cmd, args, cwd, env))
  {
    hide Read, SimpleCommands, PrintCommands, Script, Intended, ReadableCommand, Expressible;
    ScriptIsPrinted(cmd, args, cwd, env);
    CommandsMean(cmd, args, cwd, env);
    CommandsAreRead(Commands(cmd, args, cwd, env));
  }

  // ----------------------------------------------------- the converse

  predicate NamedAssigns(c: Simple) {
    forall i | 0 <= i < |c.assigns| :: IsName(c.assigns[i].0)
  }

  lemma {:induction false} AssignmentsAreNamed(ws: seq<Word>)
    ensures forall i | 0 <= i < |Assignments(ws)| :: IsName(Assignments(ws)[i].0)
  {
    hide IsName, FirstEquals, Text;
    if ws != [] && IsAssignment(ws[0]) {
      AssignmentsAreNamed(ws[1..]);
    }
  }

  lemma {:induction false} ListIsNamed(ts: seq<Token>, ws: seq<Word>)
    requires AndList(ts, ws).Some?
    ensures forall c | c in AndList(ts, ws).value :: NamedAssigns(c)
    decreases |ts|
  {
    AssignmentsAreNamed(ws);
    hide IsName, IsReserved, IsAssignment;
    if ts != [] {
      if ts[0].AndIf? {
        ListIsNamed(ts[1..], []);
      } else {
        ListIsNamed(ts[1..], ws + [ts[0].word]);
      }
    }
  }

  /** A NUL in any of the strings is an unreadable item of the last command or
      of the cd before it. */
  lemma SomeItemHoldsNul(cmd: string, args: seq<string>, cwd: Option<string>, env: Env) returns (c: Command, i: nat)
    requires !Expressible(cmd, args, cwd, env) && forall k | 0 <= k < |env| :: IsName(env[k].0)
    ensures c in Commands(cmd, args, cwd, env) && i < |c.items| && HoldsNul(c.items[i])
  {
    var last := Command(CommandItems(cmd, args, env), false);
    if cwd.Some? && !NulFree(cwd.value) {
      c, i := Command([Bare("cd"), Quote(cwd.value)], false), 1;
    } else if k :| 0 <= k < |env| && !NulFree(env[k].1) {
      c, i := last, k;
      assert last.items[k] == Assign(env[k].0, env[k].1);
    } else {
      var words := [cmd] + args;
      var k :| 0 <= k < |words| && !NulFree(words[k]) by {
        if NulFree(cmd) {
          var j :| 0 <= j < |args| && !NulFree(args[j]);
          assert words[j + 1] == args[j];
        } else {
          assert words[0] == cmd;
        }
      }
      c, i := last, |env| + k;
      assert last.items[|env| + k] == Quote(words[k]);
    }
    assert last in Commands(cmd, args, cwd, env);
  }

  /** The builder emits environment names as they are. The script reads back as
      intended exactly when every name is a POSIX name and nothing holds a
      NUL: one bad name is enough to make it run something else. */
  lemma ScriptRunsIntendedIff(cmd: string, args: seq<string>, cwd: Option<string>, env: Env)
    ensures Read(Script(cmd, args, cwd, env)) == Some(Intended(cmd, args, cwd, env))
            <==> Expressible(cmd, args, cwd, env)
  {
    var script := Script(cmd, args, cwd, env);
    if Expressible(cmd, args, cwd, env) {
      hide Read, Script, Intended, Expressible;
      ScriptRunsIntended(cmd, args, cwd, env);
    } else if Read(script) == Some(Intended(cmd, args, cwd, env)) {
      var last := Simple(env, [cmd] + args);
      assert last in Intended(cmd, args, cwd, env);
      hide Tokens, AndList, ShellQuote, EnvPart, ArgsPart, Script, Commands;
      ListIsNamed(Tokens(script).value, []);
      TokensHoldNoNul(script);
      assert NamedAssigns(last);
      var c, i := SomeItemHoldsNul(cmd, args, cwd, env);
      ScriptIsPrinted(cmd, args, cwd, env);
      NulSurvivesPrinting(Commands(cmd, args, cwd, env), c, i);
      assert false;
    }
  }

  /** What such a name does: made of characters that stand for themselves, it is
      not an assignment, and the shell runs it as the command, with the intended
      command as its first argument. */
  lemma BadNameRunsSomethingElse(name: string, value: string, cmd: string, args: seq<string>)
    requires PlainText(name) && NoEquals(name) && !IsName(name)
    requires NulFree(value) && NulFree(cmd) && forall i | 0 <= i < |args| :: NulFree(args[i])
    ensures Read(Script(cmd, args, None, [(name, value)])) == Some([Simple([], [name + "=" + value, cmd] + args)])
  {
    var env, items := [(name, value)], CommandItems(cmd, args, [(name, value)]);
    var c := Command(items, false);
    hide Script, PrintCommands, Read, CommandItems, ReadableCommand, SimpleOf, SimpleCommands;
    BadNameMeans(name, value, cmd, args);
    ScriptIsPrinted(cmd, args, None, env);
    EmptyUnit([c]);
    CommandsAreRead([c]);
    OneCommandMeans(c);
  }

  lemma OneCommandMeans(c: Command)
    ensures SimpleCommands([c])
         == if SimpleOf(Words(c.items)).None? then None else Some([SimpleOf(Words(c.items)).value])
  {
    hide SimpleOf, Words;
    assert [c][1..] == [];
    assert forall x: Simple :: [x] + [] == [x];
  }

  lemma BadNameMeans(name: string, value: string, cmd: string, args: seq<string>)
    requires PlainText(name) && NoEquals(name) && !IsName(name)
    requires NulFree(value) && NulFree(cmd) && forall i | 0 <= i < |args| :: NulFree(args[i])
    ensures var items := CommandItems(cmd, args, [(name, value)]);
            && ReadableCommand(Command(items, false))
            && SimpleOf(Words(items)) == Some(Simple([], [name + "=" + value, cmd] + args))
  {
    hide PlainText, NoEquals, IsName, WordOf, Text, IsAssignment, IsReserved, SimpleOf;
    BadNameIsAWord(name, value);
    assert AssignItems([(name, value)]) == [Assign(name, value)];
    LeadingWord(Assign(name, value), [cmd] + args);
    assert [name + "=" + value] + ([cmd] + args) == [name + "=" + value, cmd] + args;
  }

  /** A word that is no assignment, and quoted words after it. */
  lemma LeadingWord(first: Item, words: seq<string>)
    requires !IsAssignment(WordOf(first)) && !IsReserved(WordOf(first))
    ensures SimpleOf(Words([first] + QuoteItems(words))) == Some(Simple([], [Text(WordOf(first))] + words))
  {
    hide WordOf, Text, IsAssignment, IsReserved;
    var ws := Words([first] + QuoteItems(words));
    assert ws[0] == WordOf(first);
    forall i | 0 <= i < |words|
      ensures Text(ws[i + 1]) == words[i]
    {
      WordText(Quote(words[i]));
    }
    assert Arguments(ws) == [Text(WordOf(first))] + words;
  }

  /** Wrapped or not, the same words are executed. */
  lemma WrappedAndPlainAgree(cmd: string, args: seq<string>, cwd: Option<string>, env: Env)
    requires Expressible(cmd, args, cwd, env)
    ensures cwd.None? && env == [] ==> Argv(cmd, args, cwd, env) == Intended(cmd, args, cwd, env)[0].words
    ensures !(cwd.None? && env == []) ==>
              && Argv(cmd, args, cwd, env)[..2] == ["sh", "-c"]
              && Read(Argv(cmd, args, cwd, env)[2]) == Some(Intended(cmd, args, cwd, env))
  {
    hide Read, Script, Expressible;
    ScriptRunsIntended(cmd, args, cwd, env);
  }
}
