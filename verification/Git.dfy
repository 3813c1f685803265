/** The script builders of gateway/src/routes/git.rs, read back by a POSIX
    shell. */
module Git {
  import opened Prelude
  import opened PosixShell
  import opened ShellPrinting
  import Exec

  datatype CloneRequest = CloneRequest(repo: string, branch: Option<string>, path: Option<string>)
  datatype BranchRequest = BranchRequest(name: string, from: Option<string>, path: Option<string>)
  datatype CommitRequest = CommitRequest(message: string, files: Option<seq<string>>, path: Option<string>)
  datatype PushRequest = PushRequest(remote: Option<string>, branch: Option<string>, path: Option<string>)

  // ------------------------------------------------------------- URLs

  function StripScheme(repo: string): string {
    if "https://" <= repo then repo[8..]
    else if "http://" <= repo then repo[7..]
    else repo
  }

  /** The part after the last '/'. */
  function LastSegment(s: string): (r: string)
    ensures '/' !in r
    decreases |s|
  {
    if '/' !in s then s else LastSegment(s[1..])
  }

  predicate EndsWith(s: string, suffix: string) {
    |suffix| <= |s| && s[|s| - |suffix|..] == suffix
  }

  function DeriveCloneDir(repo: string): string {
    var last := LastSegment(repo);
    if EndsWith(last, ".git") then last[..|last| - 4] else last
  }

  lemma {:induction false} LastSegmentOf(prefix: string, name: string)
    requires '/' !in name && (prefix == "" || prefix[|prefix| - 1] == '/')
    ensures LastSegment(prefix + name) == name
    decreases |prefix|
  {
    if prefix == "" {
      assert prefix + name == name;
    } else {
      assert (prefix + name)[|prefix| - 1] == '/';
      assert (prefix + name)[1..] == prefix[1..] + name;
      LastSegmentOf(prefix[1..], name);
    }
  }

  lemma DropSuffix(s: string, suffix: string)
    ensures EndsWith(s + suffix, suffix) && (s + suffix)[..|s + suffix| - |suffix|] == s
  {
  }

  // -------------------------------------------------------- the scripts

  function CdCommands(path: Option<string>): seq<Command> {
    if path.Some? then [Command([Bare("cd"), Quote(path.value)], false)] else []
  }

  function OptionalQuote(s: Option<string>): seq<Item> {
    if s.Some? then [Quote(s.value)] else []
  }

  function Url(req: CloneRequest, token: Option<string>): string {
    "https://" + (if token.Some? then token.value + "@" else "") + StripScheme(req.repo)
  }

  function CloneDir(req: CloneRequest): string {
    if req.path.Some? then req.path.value else DeriveCloneDir(StripScheme(req.repo))
  }

  function CloneCommands(req: CloneRequest, token: Option<string>): seq<Command> {
    [GitCommand("clone", [Quote(Url(req, token))] + OptionalQuote(req.path), false)]
    + if req.branch.None? then [] else CheckoutCommands(CloneDir(req), req.branch.value)
  }

  function BranchCommands(req: BranchRequest): seq<Command> {
    CdCommands(req.path) + [GitCommand("checkout", [Bare("-b")] + ([Quote(req.name)] + OptionalQuote(req.from)), false)]
  }

  /** Listed files leave a blank before the `&&`; no files means all. */
  function AddCommand(files: Option<seq<string>>): Command {
    if files.Some? && files.value != [] then GitCommand("add", Exec.QuoteItems(files.value), true)
    else GitCommand("add", [Bare("-A")], false)
  }

  function CommitCommands(req: CommitRequest): seq<Command> {
    CdCommands(req.path) + [AddCommand(req.files), GitCommand("commit", [Bare("-m"), Quote(req.message)], false)]
  }

  function OrElse(s: Option<string>, otherwise: string): string {
    if s.Some? then s.value else otherwise
  }

  function PushCommands(req: PushRequest): seq<Command> {
    CdCommands(req.path)
    + [GitCommand("push", [Quote(OrElse(req.remote, "origin"))] + OptionalQuote(Some(OrElse(req.branch, "HEAD"))),
                  false)]
  }

  // ------------------------------------------------ the builders' text

  function CdText(path: Option<string>): string {
    if path.Some? then "cd " + ShellQuote(path.value) + " && " else ""
  }

  function OptionalText(s: Option<string>): string {
    if s.Some? then " " + ShellQuote(s.value) else ""
  }

  function CloneText(req: CloneRequest, token: Option<string>): string {
    "git clone " + ShellQuote(Url(req, token)) + OptionalText(req.path)
    + if req.branch.None? then ""
      else " && cd " + ShellQuote(CloneDir(req)) + " && git checkout " + ShellQuote(req.branch.value)
  }

  function BranchText(req: BranchRequest): string {
    CdText(req.path) + "git checkout -b " + ShellQuote(req.name) + OptionalText(req.from)
  }

  function FilesText(files: seq<string>): string {
    if files == [] then "" else ShellQuote(files[0]) + " " + FilesText(files[1..])
  }

  function AddText(files: Option<seq<string>>): string {
    "git add " + if files.Some? && files.value != [] then FilesText(files.value) else "-A"
  }

  function CommitText(req: CommitRequest): string {
    CdText(req.path) + AddText(req.files) + " && git commit -m " + ShellQuote(req.message)
  }

  function PushText(req: PushRequest): string {
    CdText(req.path) + "git push " + ShellQuote(OrElse(req.remote, "origin")) + " "
    + ShellQuote(OrElse(req.branch, "HEAD"))
  }

  /** The optional `cd` that three of the builders start with. */
  method BuildCd(path: Option<string>) returns (script: string)
    ensures script == CdText(path)
  {
    script := "";
    if path.Some? {
      script := script + "cd ";
      var q := Exec.BuildQuoted(path.value);
      script := script + q;
      script := script + " && ";
    }
  }

  method BuildClone(req: CloneRequest, token: Option<string>) returns (script: string)
    ensures script == CloneText(req, token)
  {
    hide ShellQuote, Url, CloneDir;
    script := "git clone ";
    var url := Exec.BuildQuoted(Url(req, token));
    script := script + url;
    if req.path.Some? {
      script := script + " ";
      var path := Exec.BuildQuoted(req.path.value);
      script := script + path;
    }
    assert script == "git clone " + ShellQuote(Url(req, token)) + OptionalText(req.path);
    if req.branch.Some? {
      script := script + " && cd ";
      var dir := Exec.BuildQuoted(CloneDir(req));
      script := script + dir;
      script := script + " && git checkout ";
      var branch := Exec.BuildQuoted(req.branch.value);
      script := script + branch;
    }
  }

  method BuildBranch(req: BranchRequest) returns (script: string)
    ensures script == BranchText(req)
  {
    hide ShellQuote;
    script := BuildCd(req.path);
    script := script + "git checkout -b ";
    var name := Exec.BuildQuoted(req.name);
    script := script + name;
    if req.from.Some? {
      script := script + " ";
      var from := Exec.BuildQuoted(req.from.value);
      script := script + from;
    }
  }

  method BuildCommit(req: CommitRequest) returns (script: string)
    ensures script == CommitText(req)
  {
    hide ShellQuote, FilesText;
    script := BuildCd(req.path);
    script := script + "git add ";
    if req.files.Some? && req.files.value != [] {
      script := BuildFiles(script, req.files.value);
    } else {
      script := script + "-A";
    }
    script := script + " && git commit -m ";
    var message := Exec.BuildQuoted(req.message);
    script := script + message;
  }

  /** The loop over the listed files. */
  method BuildFiles(script: string, files: seq<string>) returns (out: string)
    ensures out == script + FilesText(files)
  {
    hide ShellQuote;
    out := script;
    assert files[0..] == files;
    for i := 0 to |files|
      invariant out + FilesText(files[i..]) == script + FilesText(files)
    {
      assert files[i..][1..] == files[i + 1..];
      var f := Exec.BuildQuoted(files[i]);
      out := out + f;
      out := out + " ";
    }
    assert out + FilesText([]) == out;
  }

  method BuildPush(req: PushRequest) returns (script: string)
    ensures script == PushText(req)
  {
    hide ShellQuote;
    var remote, branch := OrElse(req.remote, "origin"), OrElse(req.branch, "HEAD");
    script := BuildCd(req.path);
    script := script + "git push ";
    var r := Exec.BuildQuoted(remote);
    script := script + r;
    script := script + " ";
    var b := Exec.BuildQuoted(branch);
    script := script + b;
  }

  // ------------------------------------------- the text as printed commands

  function GitCommand(sub: string, items: seq<Item>, padded: bool): Command {
    Command([Bare("git"), Bare(sub)] + items, padded)
  }

  lemma GitIsPrinted(sub: string, items: seq<Item>)
    ensures PrintItems([Bare("git"), Bare(sub)] + items)
            == "git " + sub + if items == [] then "" else " " + PrintItems(items)
  {
    hide PrintItems;
    PrintItemsCons(Bare(sub), items);
    PrintItemsCons(Bare("git"), [Bare(sub)] + items);
    assert [Bare("git"), Bare(sub)] + items == [Bare("git")] + ([Bare(sub)] + items);
    assert "git" + " " == "git ";
  }

  lemma LastItemIsPrinted(i: Item)
    ensures PrintItems([i]) == Print(i)
  {
    PrintItemsCons(i, []);
    assert [i] + [] == [i];
  }

  /** A quoted word and an optional one after it. */
  lemma QuotesArePrinted(s: string, more: Option<string>)
    ensures PrintItems([Quote(s)] + OptionalQuote(more)) == ShellQuote(s) + OptionalText(more)
  {
    hide PrintItems, ShellQuote;
    PrintItemsCons(Quote(s), OptionalQuote(more));
    if more.Some? {
      LastItemIsPrinted(Quote(more.value));
      assert ShellQuote(s) + " " + ShellQuote(more.value) == ShellQuote(s) + (" " + ShellQuote(more.value));
    } else {
      assert ShellQuote(s) + "" == ShellQuote(s);
    }
  }

  lemma CdIsPrinted(path: Option<string>, cs: seq<Command>)
    requires cs != []
    ensures PrintCommands(CdCommands(path) + cs) == CdText(path) + PrintCommands(cs)
  {
    hide PrintCommands, PrintCommand, ShellQuote;
    if path.Some? {
      Exec.CdIsPrinted(path.value);
      CommandsCons(CdCommands(path)[0], cs);
    } else {
      assert CdCommands(path) + cs == cs;
    }
  }

  lemma OneIsPrinted(c: Command)
    ensures PrintCommands([c]) == PrintCommand(c)
  {
  }

  lemma PairIsPrinted(c: Command, d: Command)
    ensures PrintCommands([c, d]) == PrintCommand(c) + " && " + PrintCommand(d)
  {
    hide PrintCommand;
    assert [c, d][1..] == [d];
  }

  // Joining pieces of text where a printed literal spans two of them.

  lemma JoinHead(x: string, y: string, z: string, w: string, joined: string)
    requires joined == x + y + z
    ensures x + y + (z + w) == joined + w
  {
  }

  lemma JoinMiddle(x: string, y: string, z: string, w: string, joined: string)
    requires joined == y + z
    ensures x + y + (z + w) == x + joined + w
  {
  }

  lemma JoinFour(x: string, y: string, z: string, u: string, v: string, w: string, joined: string)
    requires joined == y + z
    ensures x + y + (z + u + v + w) == x + (joined + u + v + w)
  {
  }

  /** A git command whose literal prefix is `head`. */
  lemma GitHead(sub: string, items: seq<Item>, head: string)
    requires items != [] && head == "git " + sub + " "
    ensures PrintItems([Bare("git"), Bare(sub)] + items) == head + PrintItems(items)
  {
    hide PrintItems;
    GitIsPrinted(sub, items);
    JoinHead("git ", sub, " ", PrintItems(items), head);
  }

  function CheckoutCommands(dir: string, branch: string): seq<Command> {
    [Command([Bare("cd"), Quote(dir)], false), GitCommand("checkout", [Quote(branch)], false)]
  }

  lemma CheckoutIsPrinted(dir: string, branch: string)
    ensures PrintCommands(CheckoutCommands(dir, branch))
         == "cd " + ShellQuote(dir) + " && git checkout " + ShellQuote(branch)
  {
    hide PrintItems, PrintCommands, ShellQuote;
    var cd, checkout := Command([Bare("cd"), Quote(dir)], false), GitCommand("checkout", [Quote(branch)], false);
    GitHead("checkout", [Quote(branch)], "git checkout ");
    LastItemIsPrinted(Quote(branch));
    Exec.CdIsPrinted(dir);
    PairIsPrinted(cd, checkout);
    JoinMiddle("cd " + ShellQuote(dir), " && ", "git checkout ", ShellQuote(branch), " && git checkout ");
  }

  /** The first command of the clone script. */
  lemma CloneHeadIsPrinted(url: string, path: Option<string>)
    ensures PrintCommand(GitCommand("clone", [Quote(url)] + OptionalQuote(path), false))
            == "git clone " + ShellQuote(url) + OptionalText(path)
  {
    hide PrintItems, ShellQuote, OptionalText, OptionalQuote;
    GitHead("clone", [Quote(url)] + OptionalQuote(path), "git clone ");
    QuotesArePrinted(url, path);
    Associative("git clone ", ShellQuote(url), OptionalText(path));
  }

  lemma CloneIsPrinted(req: CloneRequest, token: Option<string>)
    ensures CloneText(req, token) == PrintCommands(CloneCommands(req, token))
  {
    hide PrintCommand, PrintCommands, ShellQuote, Url, CloneDir, OptionalText, OptionalQuote, GitCommand,
      CheckoutCommands;
    var first := GitCommand("clone", [Quote(Url(req, token))] + OptionalQuote(req.path), false);
    var start := "git clone " + ShellQuote(Url(req, token)) + OptionalText(req.path);
    CloneHeadIsPrinted(Url(req, token), req.path);
    if req.branch.None? {
      OneIsPrinted(first);
      assert CloneCommands(req, token) == [first];
    } else {
      var dir, branch := CloneDir(req), req.branch.value;
      CheckoutIsPrinted(dir, branch);
      CommandsCons(first, CheckoutCommands(dir, branch));
      assert CheckoutCommands(dir, branch) != [] by { TwoCommands(dir, branch); }
      JoinFour(start, " && ", "cd ", ShellQuote(dir), " && git checkout ", ShellQuote(branch), " && cd ");
    }
  }

  lemma TwoCommands(dir: string, branch: string)
    ensures |CheckoutCommands(dir, branch)| == 2
  {
  }

  lemma BranchIsPrinted(req: BranchRequest)
    ensures BranchText(req) == PrintCommands(BranchCommands(req))
  {
    hide PrintItems, PrintCommands, ShellQuote, OptionalText, OptionalQuote, CdText, CdCommands;
    var quotes := [Quote(req.name)] + OptionalQuote(req.from);
    var items := [Bare("-b")] + quotes;
    PrintItemsCons(Bare("-b"), quotes);
    GitHead("checkout", items, "git checkout ");
    QuotesArePrinted(req.name, req.from);
    var last := GitCommand("checkout", items, false);
    var text := ShellQuote(req.name) + OptionalText(req.from);
    JoinHead("git checkout ", "-b", " ", text, "git checkout -b ");
    Associative("git checkout ", "-b" + " ", text);
    Associative("git checkout ", "-b", " ");
    OneIsPrinted(last);
    CdIsPrinted(req.path, [last]);
    assert PrintCommand(last) == "git checkout -b " + text;
    Associative(CdText(req.path), "git checkout -b ", text);
    Associative(CdText(req.path) + "git checkout -b ", ShellQuote(req.name), OptionalText(req.from));
  }

  lemma {:induction false} FilesArePrinted(files: seq<string>)
    requires files != []
    ensures PrintItems(Exec.QuoteItems(files)) + " " == FilesText(files)
    decreases |files|
  {
    hide PrintItems, ShellQuote;
    var rest := files[1..];
    PrintItemsCons(Quote(files[0]), Exec.QuoteItems(rest));
    assert Exec.QuoteItems(files) == [Quote(files[0])] + Exec.QuoteItems(rest);
    if rest == [] {
      assert ShellQuote(files[0]) + " " + "" == ShellQuote(files[0]) + " ";
    } else {
      FilesArePrinted(rest);
    }
  }

  lemma AddIsPrinted(files: Option<seq<string>>)
    ensures PrintCommand(AddCommand(files)) == AddText(files)
  {
    hide PrintItems, ShellQuote, FilesText;
    if files.Some? && files.value != [] {
      GitHead("add", Exec.QuoteItems(files.value), "git add ");
      FilesArePrinted(files.value);
      Associative("git add ", PrintItems(Exec.QuoteItems(files.value)), " ");
    } else {
      GitHead("add", [Bare("-A")], "git add ");
      LastItemIsPrinted(Bare("-A"));
    }
  }

  lemma MessageIsPrinted(message: string)
    ensures PrintCommand(GitCommand("commit", [Bare("-m"), Quote(message)], false))
         == "git commit -m " + ShellQuote(message)
  {
    hide PrintItems, ShellQuote;
    var items := [Bare("-m"), Quote(message)];
    PrintItemsCons(Bare("-m"), [Quote(message)]);
    assert [Bare("-m")] + [Quote(message)] == items;
    LastItemIsPrinted(Quote(message));
    GitHead("commit", items, "git commit ");
    assert "git commit -m " == "git commit " + "-m" + " ";
    Associative("git commit ", "-m" + " ", ShellQuote(message));
    Associative("git commit ", "-m", " ");
  }

  lemma AddAndCommitArePrinted(files: Option<seq<string>>, message: string)
    ensures PrintCommands([AddCommand(files), GitCommand("commit", [Bare("-m"), Quote(message)], false)])
            == AddText(files) + " && git commit -m " + ShellQuote(message)
  {
    hide PrintCommand, PrintCommands, ShellQuote, AddText, AddCommand, GitCommand;
    var add, commit := AddCommand(files), GitCommand("commit", [Bare("-m"), Quote(message)], false);
    AddIsPrinted(files);
    MessageIsPrinted(message);
    PairIsPrinted(add, commit);
    JoinMiddle(AddText(files), " && ", "git commit -m ", ShellQuote(message), " && git commit -m ");
  }

  lemma CommitIsPrinted(req: CommitRequest)
    ensures CommitText(req) == PrintCommands(CommitCommands(req))
  {
    hide PrintCommands, ShellQuote, AddText, CdText, CdCommands, AddCommand, GitCommand;
    AddAndCommitArePrinted(req.files, req.message);
    CdIsPrinted(req.path, [AddCommand(req.files), GitCommand("commit", [Bare("-m"), Quote(req.message)], false)]);
    Associative4(CdText(req.path), AddText(req.files), " && git commit -m ", ShellQuote(req.message));
  }

  lemma PushIsPrinted(req: PushRequest)
    ensures PushText(req) == PrintCommands(PushCommands(req))
  {
    hide PrintItems, PrintCommands, ShellQuote, CdText, CdCommands;
    var remote, branch := OrElse(req.remote, "origin"), OrElse(req.branch, "HEAD");
    var items := [Quote(remote)] + OptionalQuote(Some(branch));
    GitHead("push", items, "git push ");
    QuotesArePrinted(remote, Some(branch));
    var last := GitCommand("push", items, false);
    OneIsPrinted(last);
    CdIsPrinted(req.path, [last]);
    Associative4("git push ", ShellQuote(remote), " ", ShellQuote(branch));
    Associative(CdText(req.path), "git push " + ShellQuote(remote) + " ", ShellQuote(branch));
    Associative4(CdText(req.path), "git push ", ShellQuote(remote), " ");
  }

  // ---------------------------------------------------- reading back

  function CdSimple(path: Option<string>): seq<Simple> {
    if path.Some? then [Simple([], ["cd", path.value])] else []
  }

  function Optional(s: Option<string>): seq<string> {
    if s.Some? then [s.value] else []
  }

  function GitSimple(words: seq<string>): Simple {
    Simple([], ["git"] + words)
  }

  /** What each request should run. */
  function CloneIntended(req: CloneRequest, token: Option<string>): seq<Simple> {
    [GitSimple(["clone", Url(req, token)] + Optional(req.path))]
    + if req.branch.None? then []
      else [Simple([], ["cd", CloneDir(req)]), GitSimple(["checkout", req.branch.value])]
  }

  function BranchIntended(req: BranchRequest): seq<Simple> {
    CdSimple(req.path) + [GitSimple(["checkout", "-b", req.name] + Optional(req.from))]
  }

  function CommitIntended(req: CommitRequest): seq<Simple> {
    var added := if req.files.Some? && req.files.value != [] then req.files.value else ["-A"];
    CdSimple(req.path) + [GitSimple(["add"] + added), GitSimple(["commit", "-m", req.message])]
  }

  function PushIntended(req: PushRequest): seq<Simple> {
    CdSimple(req.path) + [GitSimple(["push", OrElse(req.remote, "origin"), OrElse(req.branch, "HEAD")])]
  }

  predicate Literal(s: string) {
    NoEquals(s) && Readable(Bare(s))
  }

  lemma Literals()
    ensures Literal("cd") && Literal("git") && Literal("clone") && Literal("checkout") && Literal("-b")
    ensures Literal("add") && Literal("-A") && Literal("commit") && Literal("-m") && Literal("push")
    ensures "cd" !in RESERVED && "git" !in RESERVED
  {
    CommandNames();
  }

  lemma CommandNames()
    ensures "cd" !in RESERVED && "git" !in RESERVED
  {
    assert |"cd"| == 2 && "cd"[0] == 'c' && |"git"| == 3 && "git"[0] == 'g';
  }

  lemma GitIsTemplated(sub: string, items: seq<Item>, padded: bool)
    requires Literal(sub) && forall i | 0 <= i < |items| :: items[i].Quote? || (items[i].Bare? && Literal(items[i].s))
    ensures Templated(GitCommand(sub, items, padded))
    ensures Run(GitCommand(sub, items, padded)) == GitSimple([sub] + Strings(items))
  {
    Literals();
    hide Readable, NoEquals;
    assert Strings([Bare("git"), Bare(sub)] + items) == ["git"] + ([sub] + Strings(items));
  }

  lemma CdIsTemplated(path: Option<string>)
    ensures forall c | c in CdCommands(path) :: Templated(c)
    ensures Runs(CdCommands(path)) == CdSimple(path)
  {
    Literals();
    hide Readable, NoEquals;
    if path.Some? {
      assert Strings([Bare("cd"), Quote(path.value)]) == ["cd", path.value];
    }
  }

  // ------------------------------------------ requests without a NUL

  predicate Clean(s: Option<string>) {
    s.Some? ==> NulFree(s.value)
  }

  predicate CloneIsClean(req: CloneRequest, token: Option<string>) {
    NulFree(req.repo) && Clean(token) && Clean(req.branch) && Clean(req.path)
  }

  predicate BranchIsClean(req: BranchRequest) {
    NulFree(req.name) && Clean(req.from) && Clean(req.path)
  }

  predicate CommitIsClean(req: CommitRequest) {
    && NulFree(req.message) && Clean(req.path)
    && (req.files.Some? ==> forall f :: f in req.files.value ==> NulFree(f))
  }

  predicate PushIsClean(req: PushRequest) {
    Clean(req.remote) && Clean(req.branch) && Clean(req.path)
  }

  predicate ItemsAreClean(items: seq<Item>) {
    forall i | 0 <= i < |items| :: !HoldsNul(items[i])
  }

  lemma QuotesJoin(a: seq<Command>, b: seq<Command>)
    ensures QuotesAreNulFree(a + b) <==> QuotesAreNulFree(a) && QuotesAreNulFree(b)
  {
    assert forall c :: c in a + b <==> c in a || c in b;
  }

  lemma QuotesOne(c: Command)
    ensures QuotesAreNulFree([c]) <==> ItemsAreClean(c.items)
  {
    assert c in [c];
  }

  lemma ItemsJoin(a: seq<Item>, b: seq<Item>)
    ensures ItemsAreClean(a + b) <==> ItemsAreClean(a) && ItemsAreClean(b)
  {
    assert forall i | 0 <= i < |a| :: (a + b)[i] == a[i];
    assert forall i | 0 <= i < |b| :: (a + b)[|a| + i] == b[i];
  }

  lemma ItemsOne(i: Item)
    ensures ItemsAreClean([i]) <==> !HoldsNul(i)
  {
    assert [i][0] == i;
  }

  lemma GitQuotes(sub: string, items: seq<Item>, padded: bool)
    ensures QuotesAreNulFree([GitCommand(sub, items, padded)]) <==> ItemsAreClean(items)
  {
    hide QuotesAreNulFree;
    QuotesOne(GitCommand(sub, items, padded));
    ItemsJoin([Bare("git"), Bare(sub)], items);
  }

  lemma OptionalQuotes(s: Option<string>)
    ensures ItemsAreClean(OptionalQuote(s)) <==> Clean(s)
  {
    if s.Some? {
      ItemsOne(Quote(s.value));
    }
  }

  lemma CdQuotes(path: Option<string>)
    ensures QuotesAreNulFree(CdCommands(path)) <==> Clean(path)
  {
    if path.Some? {
      QuotesOne(Command([Bare("cd"), Quote(path.value)], false));
      assert [Bare("cd"), Quote(path.value)] == [Bare("cd")] + [Quote(path.value)];
      ItemsJoin([Bare("cd")], [Quote(path.value)]);
      ItemsOne(Quote(path.value));
      ItemsOne(Bare("cd"));
    }
  }

  lemma UrlIsClean(req: CloneRequest, token: Option<string>)
    ensures NulFree(Url(req, token)) <==> NulFree(req.repo) && Clean(token)
  {
    var rest := StripScheme(req.repo);
    var skipped := req.repo[..|req.repo| - |rest|];
    assert req.repo == skipped + rest;
    assert skipped == "" || skipped == "https://" || skipped == "http://";
    var who := if token.Some? then token.value + "@" else "";
    assert Url(req, token) == "https://" + who + rest;
  }

  lemma {:induction false} SegmentIsClean(s: string)
    requires NulFree(s)
    ensures NulFree(LastSegment(s))
    decreases |s|
  {
    if '/' in s {
      SegmentIsClean(s[1..]);
    }
  }

  lemma CloneDirIsClean(req: CloneRequest)
    requires NulFree(req.repo) && Clean(req.path)
    ensures NulFree(CloneDir(req))
  {
    if req.path.None? {
      assert NulFree(StripScheme(req.repo));
      SegmentIsClean(StripScheme(req.repo));
    }
  }

  lemma CloneQuotes(req: CloneRequest, token: Option<string>)
    ensures QuotesAreNulFree(CloneCommands(req, token)) <==> CloneIsClean(req, token)
  {
    var items := [Quote(Url(req, token))] + OptionalQuote(req.path);
    var first := [GitCommand("clone", items, false)];
    GitQuotes("clone", items, false);
    ItemsJoin([Quote(Url(req, token))], OptionalQuote(req.path));
    ItemsOne(Quote(Url(req, token)));
    OptionalQuotes(req.path);
    UrlIsClean(req, token);
    if req.branch.Some? {
      var dir, branch := CloneDir(req), req.branch.value;
      QuotesJoin(first, CheckoutCommands(dir, branch));
      QuotesJoin(CdCommands(Some(dir)), [GitCommand("checkout", [Quote(branch)], false)]);
      CdQuotes(Some(dir));
      GitQuotes("checkout", [Quote(branch)], false);
      ItemsOne(Quote(branch));
      assert CheckoutCommands(dir, branch)
          == CdCommands(Some(dir)) + [GitCommand("checkout", [Quote(branch)], false)];
      if NulFree(req.repo) && Clean(req.path) {
        CloneDirIsClean(req);
      }
    } else {
      assert CloneCommands(req, token) == first;
    }
    hide QuotesAreNulFree, ItemsAreClean, Url, CloneDir, NulFree, GitCommand, CdCommands, CheckoutCommands;
  }

  lemma BranchQuotes(req: BranchRequest)
    ensures QuotesAreNulFree(BranchCommands(req)) <==> BranchIsClean(req)
  {
    hide QuotesAreNulFree, ItemsAreClean, GitCommand, CdCommands, NulFree;
    var named := [Quote(req.name)] + OptionalQuote(req.from);
    var items := [Bare("-b")] + named;
    CdQuotes(req.path);
    GitQuotes("checkout", items, false);
    QuotesJoin(CdCommands(req.path), [GitCommand("checkout", items, false)]);
    ItemsJoin([Bare("-b")], named);
    ItemsJoin([Quote(req.name)], OptionalQuote(req.from));
    ItemsOne(Bare("-b"));
    ItemsOne(Quote(req.name));
    OptionalQuotes(req.from);
  }

  lemma FileQuotes(files: seq<string>)
    ensures ItemsAreClean(Exec.QuoteItems(files)) <==> forall f :: f in files ==> NulFree(f)
  {
    var items := Exec.QuoteItems(files);
    assert forall i | 0 <= i < |files| :: HoldsNul(items[i]) <==> !NulFree(files[i]);
    hide HoldsNul, NulFree;
    if ItemsAreClean(items) {
      forall f | f in files
        ensures NulFree(f)
      {
        var i :| 0 <= i < |files| && files[i] == f;
        assert !HoldsNul(items[i]);
      }
    }
  }

  lemma CommitQuotes(req: CommitRequest)
    ensures QuotesAreNulFree(CommitCommands(req)) <==> CommitIsClean(req)
  {
    hide QuotesAreNulFree, ItemsAreClean, GitCommand, CdCommands, NulFree;
    var add, items := AddCommand(req.files), [Bare("-m"), Quote(req.message)];
    var commit := GitCommand("commit", items, false);
    CdQuotes(req.path);
    GitQuotes("commit", items, false);
    ItemsJoin([Bare("-m")], [Quote(req.message)]);
    ItemsOne(Bare("-m"));
    ItemsOne(Quote(req.message));
    assert items == [Bare("-m")] + [Quote(req.message)];
    if req.files.Some? && req.files.value != [] {
      GitQuotes("add", Exec.QuoteItems(req.files.value), true);
      FileQuotes(req.files.value);
    } else {
      GitQuotes("add", [Bare("-A")], false);
      ItemsOne(Bare("-A"));
    }
    QuotesJoin([add], [commit]);
    QuotesJoin(CdCommands(req.path), [add, commit]);
    assert [add] + [commit] == [add, commit];
  }

  lemma PushQuotes(req: PushRequest)
    ensures QuotesAreNulFree(PushCommands(req)) <==> PushIsClean(req)
  {
    var remote, branch := OrElse(req.remote, "origin"), OrElse(req.branch, "HEAD");
    assert NulFree(remote) <==> Clean(req.remote);
    assert NulFree(branch) <==> Clean(req.branch);
    hide QuotesAreNulFree, ItemsAreClean, GitCommand, CdCommands, NulFree;
    var items := [Quote(remote)] + OptionalQuote(Some(branch));
    CdQuotes(req.path);
    GitQuotes("push", items, false);
    QuotesJoin(CdCommands(req.path), [GitCommand("push", items, false)]);
    ItemsJoin([Quote(remote)], OptionalQuote(Some(branch)));
    ItemsOne(Quote(remote));
    OptionalQuotes(Some(branch));
  }

  // ------------------------------------------------- main results

  /** The script reads as exactly this list, or as nothing at all when a quoted
      string holds a NUL. */
  ghost predicate ReadsAs(script: string, cs: seq<Command>, intended: seq<Simple>) {
    Read(script) == if QuotesAreNulFree(cs) then Some(intended) else None
  }

  lemma AfterCd(path: Option<string>, cs: seq<Command>, intended: seq<Simple>)
    requires cs != [] && (forall c | c in cs :: Templated(c)) && Runs(cs) == intended
    ensures ReadsAs(PrintCommands(CdCommands(path) + cs), CdCommands(path) + cs, CdSimple(path) + intended)
  {
    hide Read, Templated, Runs, CdCommands, CdSimple, PrintCommands, QuotesAreNulFree;
    CdIsTemplated(path);
    TemplatesAreRead(CdCommands(path) + cs);
    RunsJoin(CdCommands(path), cs);
  }

  lemma RunsJoin(a: seq<Command>, b: seq<Command>)
    requires (forall c | c in a :: Templated(c)) && forall c | c in b :: Templated(c)
    ensures Runs(a + b) == Runs(a) + Runs(b)
  {
    hide Templated, Run;
  }

  /** For every request the script reads as exactly the intended list, with
      each string of the request in one word, or as nothing at all when one of
      them holds a NUL. */
  lemma CloneReadsBack(req: CloneRequest, token: Option<string>)
    ensures Read(CloneText(req, token)) == if CloneIsClean(req, token) then Some(CloneIntended(req, token)) else None
  {
    CloneQuotes(req, token);
    CloneReadsAs(req, token);
    hide Read, CloneText, CloneIsClean, CloneIntended, QuotesAreNulFree, CloneCommands;
  }

  lemma CloneReadsAs(req: CloneRequest, token: Option<string>)
    ensures ReadsAs(CloneText(req, token), CloneCommands(req, token), CloneIntended(req, token))
  {
    Literals();
    hide Read, Url, CloneDir, CloneText, Literal, Templated, GitCommand, PrintCommands, QuotesAreNulFree;
    CloneIsPrinted(req, token);
    var items := [Quote(Url(req, token))] + OptionalQuote(req.path);
    GitIsTemplated("clone", items, false);
    assert ["clone"] + Strings(items) == ["clone", Url(req, token)] + Optional(req.path);
    var first := GitCommand("clone", items, false);
    var cs := CloneCommands(req, token);
    if req.branch.None? {
      assert Runs(cs) == CloneIntended(req, token);
    } else {
      CdIsTemplated(Some(CloneDir(req)));
      var cd := CdCommands(Some(CloneDir(req)))[0];
      assert Runs([cd])[0] == Run(cd);
      GitIsTemplated("checkout", [Quote(req.branch.value)], false);
      assert ["checkout"] + Strings([Quote(req.branch.value)]) == ["checkout", req.branch.value];
      assert cs == [first, cd, GitCommand("checkout", [Quote(req.branch.value)], false)];
      assert Runs(cs) == CloneIntended(req, token);
    }
    TemplatesAreRead(cs);
  }

  lemma BranchReadsBack(req: BranchRequest)
    ensures Read(BranchText(req)) == if BranchIsClean(req) then Some(BranchIntended(req)) else None
  {
    BranchQuotes(req);
    BranchReadsAs(req);
    hide Read, BranchText, BranchIsClean, BranchIntended, QuotesAreNulFree, BranchCommands;
  }

  lemma BranchReadsAs(req: BranchRequest)
    ensures ReadsAs(BranchText(req), BranchCommands(req), BranchIntended(req))
  {
    Literals();
    hide Read, BranchText, Literal, Templated, GitCommand, PrintCommands, QuotesAreNulFree, CdCommands, CdSimple;
    BranchIsPrinted(req);
    var items := [Bare("-b")] + ([Quote(req.name)] + OptionalQuote(req.from));
    GitIsTemplated("checkout", items, false);
    assert ["checkout"] + Strings(items) == ["checkout", "-b", req.name] + Optional(req.from);
    var last := GitCommand("checkout", items, false);
    assert Runs([last]) == [Run(last)];
    AfterCd(req.path, [last], [Run(last)]);
  }

  lemma CommitReadsBack(req: CommitRequest)
    ensures Read(CommitText(req)) == if CommitIsClean(req) then Some(CommitIntended(req)) else None
  {
    CommitQuotes(req);
    CommitReadsAs(req);
    hide Read, CommitText, CommitIsClean, CommitIntended, QuotesAreNulFree, CommitCommands;
  }

  lemma CommitReadsAs(req: CommitRequest)
    ensures ReadsAs(CommitText(req), CommitCommands(req), CommitIntended(req))
  {
    Literals();
    hide Read, CommitText, Literal, Templated, GitCommand, PrintCommands, QuotesAreNulFree, CdCommands, CdSimple;
    CommitIsPrinted(req);
    var add := AddCommand(req.files);
    if req.files.Some? && req.files.value != [] {
      GitIsTemplated("add", Exec.QuoteItems(req.files.value), true);
      assert Strings(Exec.QuoteItems(req.files.value)) == req.files.value;
    } else {
      GitIsTemplated("add", [Bare("-A")], false);
      assert Strings([Bare("-A")]) == ["-A"];
    }
    var items := [Bare("-m"), Quote(req.message)];
    GitIsTemplated("commit", items, false);
    assert ["commit"] + Strings(items) == ["commit", "-m", req.message];
    var commit := GitCommand("commit", items, false);
    assert Runs([add, commit]) == [Run(add), Run(commit)];
    AfterCd(req.path, [add, commit], [Run(add), Run(commit)]);
  }

  lemma PushReadsBack(req: PushRequest)
    ensures Read(PushText(req)) == if PushIsClean(req) then Some(PushIntended(req)) else None
  {
    PushQuotes(req);
    PushReadsAs(req);
    hide Read, PushText, PushIsClean, PushIntended, QuotesAreNulFree, PushCommands;
  }

  lemma PushReadsAs(req: PushRequest)
    ensures ReadsAs(PushText(req), PushCommands(req), PushIntended(req))
  {
    Literals();
    hide Read, PushText, Literal, Templated, GitCommand, PrintCommands, QuotesAreNulFree, CdCommands, CdSimple;
    PushIsPrinted(req);
    var remote, branch := OrElse(req.remote, "origin"), OrElse(req.branch, "HEAD");
    var items := [Quote(remote)] + OptionalQuote(Some(branch));
    GitIsTemplated("push", items, false);
    assert ["push"] + Strings(items) == ["push", remote, branch];
    var last := GitCommand("push", items, false);
    assert Runs([last]) == [Run(last)];
    AfterCd(req.path, [last], [Run(last)]);
  }
}
