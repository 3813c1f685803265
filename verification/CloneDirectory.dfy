/** The directory a repository is cloned into: `derive_clone_dir` in
    gateway/src/routes/git.rs against the rule by which `git clone` itself names
    a directory. */
module CloneDirectory {
  import opened Prelude
  import opened Git

  // ------------------------------------------------------- git's rule

  /** Git's `isspace`. */
  predicate IsSpace(c: char) {
    c == ' ' || c == '\t' || c == '\n' || c == '\r'
  }

  predicate IsDigit(c: char) {
    '0' <= c <= '9'
  }

  /** The part after the last of these two characters. */
  function AfterLast(s: string, a: char, b: char): (r: string)
    ensures |r| <= |s| && r == s[|s| - |r|..]
    ensures a !in r && b !in r
  {
    if a !in s && b !in s then s else AfterLast(s[1..], a, b)
  }

  /** The part after the first "://". */
  function AfterScheme(s: string): Option<string> {
    if s == "" then None else if "://" <= s then Some(s[3..]) else AfterScheme(s[1..])
  }

  function SkipScheme(url: string): string {
    var after := AfterScheme(url);
    if after.Some? then after.value else url
  }

  /** An '@' before the first slash. */
  predicate HasAuth(s: string) {
    s != "" && s[0] != '/' && (s[0] == '@' || HasAuth(s[1..]))
  }

  /** Without the authentication data before the host. */
  function SkipAuth(s: string): (r: string)
    ensures |r| <= |s|
  {
    if HasAuth(s) then SkipAuth(s[1..]) else s
  }

  function StripEnd(s: string): (t: string)
    ensures t <= s && (t == "" || (t[|t| - 1] != '/' && !IsSpace(t[|t| - 1])))
  {
    if s != "" && (s[|s| - 1] == '/' || IsSpace(s[|s| - 1])) then StripEnd(s[..|s| - 1]) else s
  }

  function StripSlashes(s: string): (t: string)
    ensures t <= s && !EndsWith(t, "/")
  {
    if EndsWith(s, "/") then StripSlashes(s[..|s| - 1]) else s
  }

  /** Without trailing spaces and slashes, and without one `/.git` and the slashes
      before that. */
  function Core(s: string): string {
    var t := StripEnd(s);
    if |t| > 5 && EndsWith(t, "/.git") then StripSlashes(t[..|t| - 5]) else t
  }

  function StripDigits(s: string): (t: string)
    ensures t <= s
  {
    if s != "" && IsDigit(s[|s| - 1]) then StripDigits(s[..|s| - 1]) else s
  }

  /** Without the port, if there is nothing but a host. */
  function StripPort(s: string): (t: string)
    ensures t <= s
  {
    var t := StripDigits(s);
    if '/' !in s && EndsWith(t, ":") then t[..|t| - 1] else s
  }

  function StripGit(s: string): string {
    if EndsWith(s, ".git") then s[..|s| - 4] else s
  }

  /** Control characters become blanks, and of blanks in a row one is kept; `drop`
      tells that a blank here is not kept. */
  function Squeezed(s: string, drop: bool): string {
    if s == "" then ""
    else if s[0] > ' ' then [s[0]] + Squeezed(s[1..], false)
    else (if drop then "" else " ") + Squeezed(s[1..], true)
  }

  /** The same without blanks at the ends. */
  function Squeeze(s: string): string {
    var t := Squeezed(s, true);
    if EndsWith(t, " ") then t[..|t| - 1] else t
  }

  /** The directory for a host and path; None if git finds no name. */
  function NameOf(core: string): Option<string> {
    var name := StripGit(AfterLast(StripPort(core), '/', ':'));
    if name == "" then None else Some(Squeeze(name))
  }

  /** The directory for what follows the scheme. */
  function Guess(rest: string): Option<string> {
    NameOf(Core(SkipAuth(rest)))
  }

  function GitDir(url: string): Option<string> {
    Guess(SkipScheme(url))
  }

  // -------------------------------------------------- empty directories

  /** The text does not end in a name. */
  predicate Nameless(s: string) {
    s == "" || s == ".git" || EndsWith(s, "/") || EndsWith(s, "/.git")
  }

  lemma {:induction false} LastSegmentEnds(s: string)
    ensures EndsWith(s, LastSegment(s))
    ensures LastSegment(s) == s || EndsWith(s, "/" + LastSegment(s))
    decreases |s|
  {
    if '/' in s {
      var r, last := s[1..], LastSegment(s);
      LastSegmentEnds(r);
      hide LastSegment;
      assert s == [s[0]] + r;
      if last == r && '/' !in r {
        assert s[0] == '/';
        assert s == "/" + last;
      }
    }
  }

  lemma SegmentAfter(prefix: string, name: string)
    requires '/' !in name
    ensures LastSegment(prefix + "/" + name) == name
  {
    LastSegmentOf(prefix + "/", name);
  }

  lemma SegmentIsNamelessIf(s: string)
    requires EndsWith(s, "/") || EndsWith(s, "/.git")
    ensures LastSegment(s) == "" || LastSegment(s) == ".git"
  {
    hide LastSegment;
    if EndsWith(s, "/") {
      assert s == s[..|s| - 1] + "/" + "";
      SegmentAfter(s[..|s| - 1], "");
    } else {
      assert s == s[..|s| - 5] + "/" + ".git";
      SegmentAfter(s[..|s| - 5], ".git");
    }
  }

  lemma NamelessIffSegment(s: string)
    ensures LastSegment(s) == "" || LastSegment(s) == ".git" <==> Nameless(s)
  {
    if EndsWith(s, "/") || EndsWith(s, "/.git") {
      SegmentIsNamelessIf(s);
    } else {
      LastSegmentEnds(s);
      assert "/" + "" == "/" && "/" + ".git" == "/.git";
    }
  }

  /** The derived name is empty exactly on texts that end in no name. */
  lemma DerivedIsEmptyIff(s: string)
    ensures DeriveCloneDir(s) == "" <==> Nameless(s)
  {
    hide LastSegment, Nameless;
    NamelessIffSegment(s);
    var last := LastSegment(s);
    assert EndsWith(last, ".git") && |last| == 4 ==> last == ".git";
  }

  // ------------------------------------------------------- agreement

  /** What git leaves of a name as it is: no control character, and no blank but
      single ones inside. */
  predicate Tidy(s: string) {
    && (forall i :: 0 <= i < |s| ==> s[i] >= ' ')
    && (s != "" ==> s[0] != ' ' && s[|s| - 1] != ' ')
    && forall i :: 0 < i < |s| ==> s[i - 1] != ' ' || s[i] != ' '
  }

  /** The text ends in a name that git takes as it is: a last segment without a
      colon, tidy but for its `.git`, and no '@' in a text of one segment. */
  predicate Ordinary(repo: string) {
    && !Nameless(repo)
    && ':' !in LastSegment(repo)
    && ('/' in repo || '@' !in repo)
    && Tidy(StripGit(LastSegment(repo)))
  }

  /** A text that squeezing leaves alone, where a first blank is kept or not. */
  predicate TidyFrom(s: string, drop: bool) {
    && (forall i :: 0 <= i < |s| ==> s[i] >= ' ')
    && (s != "" && drop ==> s[0] != ' ')
    && forall i :: 0 < i < |s| ==> s[i - 1] != ' ' || s[i] != ' '
  }

  lemma TidyCons(c: char, rest: string, drop: bool)
    ensures TidyFrom([c] + rest, drop) <==> c >= ' ' && (c == ' ' ==> !drop) && TidyFrom(rest, c == ' ')
  {
    var s := [c] + rest;
    assert s[0] == c && forall i :: 0 < i < |s| ==> s[i] == rest[i - 1];
    if TidyFrom(s, drop) {
      forall i | 0 < i < |rest|
        ensures rest[i - 1] != ' ' || rest[i] != ' '
      {
        assert s[i] == rest[i - 1] && s[i + 1] == rest[i];
      }
      assert forall i :: 0 <= i < |rest| ==> rest[i] == s[i + 1];
    }
  }

  lemma {:induction false} SqueezedIsTidy(s: string, drop: bool)
    ensures TidyFrom(Squeezed(s, drop), drop)
  {
    if s != "" {
      hide TidyFrom;
      var rest := s[1..];
      SqueezedIsTidy(rest, s[0] <= ' ');
      if s[0] > ' ' {
        TidyCons(s[0], Squeezed(rest, false), drop);
      } else if drop {
        EmptyUnit(Squeezed(rest, true));
      } else {
        TidyCons(' ', Squeezed(rest, true), drop);
      }
    } else {
      assert TidyFrom("", drop);
    }
  }

  lemma {:induction false} TidyIsKept(s: string, drop: bool)
    requires TidyFrom(s, drop)
    ensures Squeezed(s, drop) == s
  {
    if s != "" {
      hide TidyFrom;
      var c, rest := s[0], s[1..];
      assert s == [c] + rest;
      TidyCons(c, rest, drop);
      TidyIsKept(rest, c == ' ');
    }
  }

  lemma {:induction false} SqueezedHolds(s: string, drop: bool)
    ensures forall c :: c in Squeezed(s, drop) ==> c == ' ' || c in s
  {
    if s != "" {
      SqueezedHolds(s[1..], s[0] <= ' ');
      assert s == [s[0]] + s[1..];
    }
  }

  lemma TidyParts(s: string)
    ensures Tidy(s) <==> TidyFrom(s, true) && !EndsWith(s, " ")
    ensures TidyFrom(s, true) ==> Tidy(if EndsWith(s, " ") then s[..|s| - 1] else s)
  {
    assert EndsWith(s, " ") <==> s != "" && s[|s| - 1] == ' ';
  }

  /** Squeezing leaves a tidy name, and a tidy name alone. */
  lemma SqueezeIs(s: string)
    ensures Tidy(Squeeze(s))
    ensures Tidy(s) ==> Squeeze(s) == s
    ensures forall c :: c in Squeeze(s) ==> c == ' ' || c in s
  {
    var t := Squeezed(s, true);
    SqueezedIsTidy(s, true);
    SqueezedHolds(s, true);
    TidyParts(t);
    TidyParts(s);
    if Tidy(s) {
      TidyIsKept(s, true);
    }
    hide Squeezed, Tidy, TidyFrom;
    assert forall c :: c in Squeeze(s) ==> c in t;
  }

  lemma {:induction false} AfterLastOf(a: string, b: string, c: char, d: char)
    requires c !in b && d !in b && (a == "" || a[|a| - 1] == c || a[|a| - 1] == d)
    ensures AfterLast(a + b, c, d) == b
    decreases |a|
  {
    if a == "" {
      assert a + b == b;
    } else {
      assert (a + b)[|a| - 1] == a[|a| - 1] && (a + b)[|a| - 1] in a + b;
      assert (a + b)[1..] == a[1..] + b;
      AfterLastOf(a[1..], b, c, d);
    }
  }

  /** The text in front of its last segment. */
  lemma SegmentSplit(s: string) returns (front: string)
    ensures s == front + LastSegment(s) && (front == "" || front[|front| - 1] == '/')
    ensures front == "" <==> '/' !in s
  {
    LastSegmentEnds(s);
    var last := LastSegment(s);
    front := s[..|s| - |last|];
    hide LastSegment;
    assert s == front + last;
    assert front == "" ==> s == last;
    if front != "" {
      assert EndsWith(s, "/" + last);
      assert s[|front| - 1] == ("/" + last)[0];
      assert s[|front| - 1] in s;
    }
  }

  lemma {:induction false} HasAuthConcat(a: string, b: string)
    requires '/' in a || (b != "" && b[0] == '/')
    ensures HasAuth(a + b) <==> HasAuth(a)
  {
    if a == "" {
      assert a + b == b;
    } else {
      assert a == [a[0]] + a[1..] && (a + b)[1..] == a[1..] + b;
      if a[0] != '/' {
        HasAuthConcat(a[1..], b);
      }
    }
  }

  /** Skipping the authentication data leaves what comes after a slash. */
  lemma {:induction false} AuthConcat(a: string, b: string)
    requires '/' in a || (b != "" && b[0] == '/')
    ensures SkipAuth(a + b) == SkipAuth(a) + b
    decreases |a|
  {
    HasAuthConcat(a, b);
    if HasAuth(a) {
      assert a == [a[0]] + a[1..] && (a + b)[1..] == a[1..] + b;
      hide HasAuth;
      AuthConcat(a[1..], b);
    }
  }

  lemma {:induction false} HasAuthIff(s: string)
    requires '/' !in s
    ensures HasAuth(s) <==> '@' in s
  {
    if s != "" {
      assert s == [s[0]] + s[1..];
      HasAuthIff(s[1..]);
    }
  }

  lemma {:induction false} NoSlash(s: string)
    requires '/' !in s
    ensures '@' !in SkipAuth(s)
    ensures '@' !in s ==> SkipAuth(s) == s
    decreases |s|
  {
    HasAuthIff(s);
    if HasAuth(s) {
      hide HasAuth;
      NoSlash(s[1..]);
    }
  }

  lemma {:induction false} AuthEnds(s: string)
    ensures SkipAuth(s) == s[|s| - |SkipAuth(s)|..]
    decreases |s|
  {
    if HasAuth(s) {
      hide HasAuth;
      AuthEnds(s[1..]);
    }
  }

  lemma {:induction false} SlashIsKept(s: string)
    requires s != "" && s[|s| - 1] == '/'
    ensures var r := SkipAuth(s); r != "" && r[|r| - 1] == '/'
    decreases |s|
  {
    if HasAuth(s) {
      assert |s| > 1;
      assert s[1..][|s| - 2] == '/';
      hide HasAuth;
      SlashIsKept(s[1..]);
    }
  }

  /** What is left of an ordinary text ends in the same last segment. */
  lemma AuthKeepsSegment(repo: string) returns (front: string)
    requires '/' in repo || '@' !in repo
    ensures SkipAuth(repo) == front + LastSegment(repo) && (front == "" || front[|front| - 1] == '/')
    ensures front == "" <==> '/' !in repo
  {
    front := SegmentSplit(repo);
    hide LastSegment, SkipAuth, HasAuth;
    if '/' in repo {
      assert '/' in front;
      AuthConcat(front, LastSegment(repo));
      SlashIsKept(front);
      front := SkipAuth(front);
    } else {
      NoSlash(repo);
      assert front + LastSegment(repo) == LastSegment(repo);
    }
  }

  lemma LastOfOrdinary(last: string)
    requires last != "" && last != ".git" && Tidy(StripGit(last))
    ensures StripGit(last) != ""
    ensures last[|last| - 1] != ' ' && !IsSpace(last[|last| - 1])
  {
  }

  /** Nothing is stripped after an ordinary last segment. */
  lemma CoreIsWhole(front: string, last: string)
    requires last != "" && last != ".git" && '/' !in last && Tidy(StripGit(last))
    requires front == "" || front[|front| - 1] == '/'
    ensures Core(front + last) == front + last
  {
    LastOfOrdinary(last);
    var s := front + last;
    assert s[|s| - 1] == last[|last| - 1];
    assert last[|last| - 1] in last;
    assert StripEnd(s) == s;
    hide Tidy, StripGit, StripEnd, StripSlashes;
    if EndsWith(s, "/.git") {
      LastSegmentOf(front, last);
      SegmentIsNamelessIf(s);
    }
  }

  lemma GuessIsName(repo: string)
    requires Ordinary(repo)
    ensures Guess(repo) == Some(StripGit(LastSegment(repo)))
  {
    var last := LastSegment(repo);
    NamelessIffSegment(repo);
    var front := AuthKeepsSegment(repo);
    hide LastSegment, Nameless, SkipAuth, Core, AfterLast, Squeeze, Tidy, StripGit, StripDigits;
    CoreIsWhole(front, last);
    if front == "" {
      assert front + last == last;
      assert StripPort(last) == last by { NoColonNoPort(last); }
    } else {
      assert '/' in front + last by { assert (front + last)[|front| - 1] == '/'; }
    }
    AfterLastOf(front, last, '/', ':');
    LastOfOrdinary(last);
    SqueezeIs(StripGit(last));
  }

  lemma EndIsIn(s: string, c: char)
    ensures EndsWith(s, [c]) ==> c in s
  {
    assert EndsWith(s, [c]) ==> s[|s| - 1] == c;
  }

  lemma NoColonNoPort(s: string)
    requires ':' !in s
    ensures StripPort(s) == s
  {
    var t := StripDigits(s);
    EndIsIn(t, ':');
    assert ':' in t ==> ':' in s;
    hide StripDigits, EndsWith;
  }

  /** The characters of git's name. */
  lemma GuessHolds(rest: string)
    requires Guess(rest).Some?
    ensures Tidy(Guess(rest).value)
    ensures '/' !in Guess(rest).value && ':' !in Guess(rest).value
    ensures forall c :: c in Guess(rest).value ==> c == ' ' || c in SkipAuth(rest)
  {
    var s := SkipAuth(rest);
    CoreHolds(s);
    var core := Core(s);
    var port := StripPort(core);
    var base := AfterLast(port, '/', ':');
    hide SkipAuth, Core, StripPort, AfterLast, Squeeze, Tidy;
    assert forall c :: c in port ==> c in core;
    assert forall c :: c in base ==> c in port;
    assert forall c :: c in StripGit(base) ==> c in base;
    SqueezeIs(StripGit(base));
  }

  lemma CoreHolds(s: string)
    ensures Core(s) <= s
  {
    hide StripEnd, StripSlashes;
  }

  /** A name that git gives holds no colon and no '@' of a lone segment, and is
      tidy. */
  lemma GuessedIsOrdinary(repo: string)
    requires Guess(repo) == Some(StripGit(LastSegment(repo)))
    ensures ':' !in LastSegment(repo) && Tidy(StripGit(LastSegment(repo)))
    ensures '/' !in repo ==> '@' !in repo
  {
    var last := LastSegment(repo);
    hide LastSegment, Guess, Tidy, SkipAuth, AfterLast, StripGit;
    GuessHolds(repo);
    SuffixHolds(last, ':');
    if '/' !in repo {
      NoSlash(repo);
      assert '@' !in SkipAuth(repo);
      OnlySegment(repo);
      SuffixHolds(last, '@');
    }
  }

  /** `derive_clone_dir` gives the directory that git clones into exactly on
      ordinary texts. */
  lemma DerivedIsGitsIff(repo: string)
    ensures (Guess(repo) == Some(DeriveCloneDir(repo)) && DeriveCloneDir(repo) != "") <==> Ordinary(repo)
  {
    DeriveIsStripped(repo);
    DerivedIsEmptyIff(repo);
    hide LastSegment, Nameless, Guess, Tidy, DeriveCloneDir, StripGit;
    if Ordinary(repo) {
      GuessIsName(repo);
    }
    if Guess(repo) == Some(StripGit(LastSegment(repo))) {
      GuessedIsOrdinary(repo);
    }
  }

  lemma OnlySegment(s: string)
    requires '/' !in s
    ensures LastSegment(s) == s
  {
  }

  lemma SuffixHolds(s: string, c: char)
    requires c !in ".git"
    ensures c in s <==> c in StripGit(s)
  {
    if EndsWith(s, ".git") {
      assert s == StripGit(s) + ".git";
    }
  }

  // ---------------------------------------------------- the clone script

  lemma {:induction false} HasAuthToken(token: string, repo: string)
    requires '/' !in token
    ensures HasAuth(token + ("@" + repo))
  {
    if token == "" {
      assert token + ("@" + repo) == "@" + repo;
    } else {
      assert token == [token[0]] + token[1..] && (token + ("@" + repo))[1..] == token[1..] + ("@" + repo);
      HasAuthToken(token[1..], repo);
    }
  }

  lemma {:induction false} TokenIsSkipped(token: string, repo: string)
    requires '/' !in token
    ensures SkipAuth(token + ("@" + repo)) == SkipAuth(repo)
  {
    HasAuthToken(token, repo);
    hide HasAuth;
    if token == "" {
      assert token + ("@" + repo) == "@" + repo && ("@" + repo)[1..] == repo;
    } else {
      assert token == [token[0]] + token[1..] && (token + ("@" + repo))[1..] == token[1..] + ("@" + repo);
      TokenIsSkipped(token[1..], repo);
    }
  }

  lemma HttpsIsSkipped(rest: string)
    ensures SkipScheme("https://" + rest) == rest
  {
    var url := "https://" + rest;
    assert url[0] == 'h' && url[1..][0] == 't' && url[2..][0] == 't' && url[3..][0] == 'p' && url[4..][0] == 's';
    assert url[5..] == "://" + rest;
    assert url[4..][1..] == url[5..] && url[3..][1..] == url[4..] && url[2..][1..] == url[3..]
      && url[1..][1..] == url[2..];
    assert AfterScheme(url[5..]) == Some(rest) by { assert ("://" + rest)[3..] == rest; }
    assert AfterScheme(url[4..]) == AfterScheme(url[5..]);
    assert AfterScheme(url[3..]) == AfterScheme(url[4..]);
    assert AfterScheme(url[2..]) == AfterScheme(url[3..]);
    assert AfterScheme(url[1..]) == AfterScheme(url[2..]);
    assert AfterScheme(url) == AfterScheme(url[1..]);
  }

  /** What git sees of the script's URL is the repository without its scheme. */
  lemma UrlIsGuessed(req: CloneRequest, token: Option<string>)
    requires token.Some? ==> '/' !in token.value
    ensures GitDir(Url(req, token)) == Guess(StripScheme(req.repo))
  {
    var repo := StripScheme(req.repo);
    hide StripScheme, SkipAuth, HasAuth, SkipScheme, Core, StripPort, AfterLast, Squeeze, StripGit;
    if token.Some? {
      TokenIsSkipped(token.value, repo);
      Associative("https://", token.value + "@", repo);
      Associative(token.value, "@", repo);
      HttpsIsSkipped(token.value + ("@" + repo));
    } else {
      EmptyUnit("https://");
      HttpsIsSkipped(repo);
    }
  }

  /** Without a path, the directory that the clone script enters is the one that
      git clones the script's URL into, exactly when the repository without its
      scheme is ordinary. */
  lemma CloneEntersItsDirIff(req: CloneRequest, token: Option<string>)
    requires req.path.None? && (token.Some? ==> '/' !in token.value)
    ensures (GitDir(Url(req, token)) == Some(CloneDir(req)) && CloneDir(req) != "")
            <==> Ordinary(StripScheme(req.repo))
  {
    hide StripScheme, Ordinary, DeriveCloneDir, Guess, GitDir, Url;
    DerivedIsGitsIff(StripScheme(req.repo));
    UrlIsGuessed(req, token);
  }

  /** A path ending in /name.git, or in /name for a name without that suffix, is
      cloned into name; such paths are ordinary, so git does the same. */
  lemma CloneDirIsRepoName(prefix: string, name: string)
    requires '/' !in name && name != "" && (prefix == "" || prefix[|prefix| - 1] == '/')
    requires ':' !in name && Tidy(name) && (prefix == "" ==> '@' !in name)
    ensures DeriveCloneDir(prefix + (name + ".git")) == name && Ordinary(prefix + (name + ".git"))
    ensures !EndsWith(name, ".git") ==> DeriveCloneDir(prefix + name) == name && Ordinary(prefix + name)
  {
    hide Tidy, DeriveCloneDir, Ordinary;
    DropSuffix(name, ".git");
    SegmentIsDir(prefix, name + ".git");
    if !EndsWith(name, ".git") {
      assert name != ".git";
      SegmentIsDir(prefix, name);
    }
  }

  lemma SegmentIsDir(prefix: string, last: string)
    requires '/' !in last && last != "" && last != ".git" && (prefix == "" || prefix[|prefix| - 1] == '/')
    requires ':' !in last && Tidy(StripGit(last)) && (prefix == "" ==> '@' !in last)
    ensures DeriveCloneDir(prefix + last) == StripGit(last) && Ordinary(prefix + last)
  {
    var s := prefix + last;
    LastSegmentOf(prefix, last);
    NamelessIffSegment(s);
    DeriveIsStripped(s);
    assert prefix != "" ==> s[|prefix| - 1] == '/';
    assert prefix == "" ==> s == last;
    hide LastSegment, Tidy, Nameless, DeriveCloneDir, StripGit;
  }

  lemma DeriveIsStripped(s: string)
    ensures DeriveCloneDir(s) == StripGit(LastSegment(s))
  {
  }

  lemma EndIsKept(s: string, t: string)
    requires 0 < |t| <= |s| && t == s[|s| - |t|..]
    ensures t[|t| - 1] == s[|s| - 1]
    ensures EndsWith(t, "/.git") ==> EndsWith(s, "/.git")
  {
  }

  lemma CoreOfEnding(t: string, ending: string)
    requires t != "" && (ending == "/" || ending == "/.git")
    requires t[|t| - 1] != '/' && !IsSpace(t[|t| - 1]) && !EndsWith(t, "/.git")
    ensures Core(t + ending) == Core(t) == t
  {
    var s := t + ending;
    assert StripEnd(t) == t;
    assert Core(t) == t;
    assert s[..|t|] == t;
    if ending == "/" {
      assert s[|s| - 1] == '/';
      assert StripEnd(s) == StripEnd(s[..|s| - 1]);
    } else {
      assert s[|s| - 1] == 't';
      assert StripEnd(s) == s && EndsWith(s, "/.git");
      assert StripSlashes(t) == t;
    }
  }

  /** The failing family that callers meet: a slash or a `/.git` after an ordinary
      text leaves no directory name, where git still uses the same one. */
  lemma NamelessEndings(repo: string, ending: string)
    requires Ordinary(repo) && (ending == "/" || ending == "/.git")
    ensures DeriveCloneDir(repo + ending) == ""
    ensures Guess(repo + ending) == Some(DeriveCloneDir(repo))
  {
    hide *;
    OrdinaryLeft(repo);
    DerivedIsGitsIff(repo);
    NamelessAfter(repo, ending);
    AuthConcat(repo, ending);
    CoreOfEnding(SkipAuth(repo), ending);
    SameCoreSameName(repo + ending, repo);
  }

  lemma SameCoreSameName(a: string, b: string)
    requires Core(SkipAuth(a)) == Core(SkipAuth(b))
    ensures Guess(a) == Guess(b)
  {
    hide SkipAuth, Core, NameOf;
  }

  lemma NamelessAfter(s: string, ending: string)
    requires ending == "/" || ending == "/.git"
    ensures DeriveCloneDir(s + ending) == "" && ending[0] == '/'
  {
    EndsAfter(s, ending);
    hide DeriveCloneDir;
    DerivedIsEmptyIff(s + ending);
  }

  lemma OrdinaryLeft(repo: string)
    requires Ordinary(repo)
    ensures var t := SkipAuth(repo);
            t != "" && t[|t| - 1] != '/' && !IsSpace(t[|t| - 1]) && !EndsWith(t, "/.git")
  {
    OrdinaryEnd(repo);
    NamelessIffSegment(repo);
    var front := AuthKeepsSegment(repo);
    AuthEnds(repo);
    hide LastSegment, SkipAuth, HasAuth, IsSpace, Tidy, StripGit;
    EndIsKept(repo, SkipAuth(repo));
  }

  lemma EndsAfter(s: string, ending: string)
    ensures EndsWith(s + ending, ending)
  {
  }

  lemma OrdinaryEnd(repo: string)
    requires Ordinary(repo)
    ensures repo != "" && repo[|repo| - 1] != '/' && !IsSpace(repo[|repo| - 1])
  {
    var last := LastSegment(repo);
    LastSegmentEnds(repo);
    NamelessIffSegment(repo);
    hide LastSegment;
    LastOfOrdinary(last);
    assert last[|last| - 1] == repo[|repo| - 1] && last[|last| - 1] in last;
  }
}
