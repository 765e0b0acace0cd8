/**
 The coverage guard over `cargo test` commands
 (scripts/check-tests-blocking.py): which token lists count as unfiltered test
 runs, and the flat scan that reads the tested packages off them.
 */
module TestTokens {

  import opened Options

  predicate StartsWith(s: string, prefix: string) {
    |prefix| <= |s| && s[..|prefix|] == prefix
  }

  predicate IsFlag(s: string) {
    || s == "--locked" || s == "--offline" || s == "--frozen" || s == "--workspace" || s == "--all-targets"
    || s == "--all-features" || s == "--no-default-features" || s == "--release" || s == "--quiet" || s == "-q"
    || s == "--verbose" || s == "-v"
  }

  predicate IsPackageOption(s: string) {
    s == "-p" || s == "--package"
  }

  predicate TakesValue(s: string) {
    IsPackageOption(s) || s == "--features" || s == "-j" || s == "--jobs"
  }

  predicate IsAssigned(s: string) {
    StartsWith(s, "--package=") || StartsWith(s, "--features=") || StartsWith(s, "--jobs=")
  }

  // ── The grammar ──────────────────────────────────────────────────────────

  datatype Arg = Flag(name: string) | Valued(option: string, value: string) | Assigned(text: string)

  /** The arguments the tokens spell from a position on, if they are all known. */
  function Args(tokens: seq<string>): Option<seq<Arg>>
    decreases |tokens|
  {
    if tokens == [] then Some([])
    else if IsFlag(tokens[0]) then Put(Flag(tokens[0]), Args(tokens[1..]))
    else if TakesValue(tokens[0]) then
      if |tokens| < 2 || StartsWith(tokens[1], "-") then None
      else Put(Valued(tokens[0], tokens[1]), Args(tokens[2..]))
    else if IsAssigned(tokens[0]) then Put(Assigned(tokens[0]), Args(tokens[1..]))
    else None
  }

  function Put(a: Arg, rest: Option<seq<Arg>>): Option<seq<Arg>> {
    if rest.None? then None else Some([a] + rest.value)
  }

  function After(tokens: seq<string>): nat {
    if |tokens| > 1 && StartsWith(tokens[1], "+") then 2 else 1
  }

  /** `cargo`, perhaps a toolchain, `test`, then arguments. */
  function Command(tokens: seq<string>): Option<seq<Arg>> {
    var at := After(tokens);
    if |tokens| <= at || tokens[0] != "cargo" || tokens[at] != "test" then None else Args(tokens[at + 1..])
  }

  /** The packages a grammar-directed reading finds. */
  function Packages(args: seq<Arg>): set<string> {
    if args == [] then {} else Named(args[0]) + Packages(args[1..])
  }

  function Named(a: Arg): set<string> {
    match a
    case Flag(_) => {}
    case Valued(option, value) => if IsPackageOption(option) then {value} else {}
    case Assigned(text) => if StartsWith(text, "--package=") then {text[10..]} else {}
  }

  predicate WholeWorkspace(args: seq<Arg>) {
    Flag("--workspace") in args
  }

  // ── The grammar, said the other way round ────────────────────────────────

  const FLAGS: set<string> :=
    {"--locked", "--offline", "--frozen", "--workspace", "--all-targets", "--all-features", "--no-default-features",
     "--release", "--quiet", "-q", "--verbose", "-v"}
  const OPTIONS: set<string> := {"-p", "--package", "--features", "-j", "--jobs"}
  const PREFIXES: set<string> := {"--package=", "--features=", "--jobs="}

  /** One argument as it may be written. */
  ghost predicate WellFormed(a: Arg) {
    match a
    case Flag(name) => name in FLAGS
    case Valued(option, value) => option in OPTIONS && (value == "" || value[0] != '-')
    case Assigned(text) => exists prefix, value :: prefix in PREFIXES && text == prefix + value
  }

  function Spelled(args: seq<Arg>): seq<string> {
    if args == [] then []
    else (match args[0]
          case Flag(name) => [name]
          case Valued(option, value) => [option, value]
          case Assigned(text) => [text]) + Spelled(args[1..])
  }

  ghost predicate AllWellFormed(args: seq<Arg>) {
    forall i :: 0 <= i < |args| ==> WellFormed(args[i])
  }

  lemma StartsExactly(s: string, prefix: string)
    ensures StartsWith(s, prefix) <==> exists rest :: s == prefix + rest
  {
    if StartsWith(s, prefix) {
      assert s == prefix + s[|prefix|..];
    }
    if rest :| s == prefix + rest {
      assert (prefix + rest)[..|prefix|] == prefix;
    }
  }

  lemma AssignedExactly(s: string)
    ensures IsAssigned(s) <==> WellFormed(Assigned(s))
  {
    StartsExactly(s, "--package=");
    StartsExactly(s, "--features=");
    StartsExactly(s, "--jobs=");
    hide StartsWith;
    assert forall p :: p in PREFIXES <==> p == "--package=" || p == "--features=" || p == "--jobs=";
  }

  lemma ValueExactly(option: string, value: string)
    ensures TakesValue(option) && !StartsWith(value, "-") <==> WellFormed(Valued(option, value))
  {
    assert |"-"| == 1 && "-"[0] == '-';
    if value != "" {
      assert value[..1] == [value[0]];
    }
  }

  lemma OptionsAreNoFlags(s: string)
    ensures s in FLAGS <==> IsFlag(s)
    ensures s in OPTIONS <==> TakesValue(s)
    ensures s in OPTIONS ==> s !in FLAGS
    ensures IsAssigned(s) ==> !IsFlag(s) && !TakesValue(s)
  {
    Prefixed(s, "--package=", 9);
    Prefixed(s, "--features=", 10);
    Prefixed(s, "--jobs=", 6);
  }

  lemma ReadFirst(tokens: seq<string>, args: seq<Arg>)
    requires Args(tokens) == Some(args) && tokens != []
    ensures args != [] && WellFormed(args[0]) && Spelled([args[0]]) <= tokens
    ensures Args(tokens[|Spelled([args[0]])|..]) == Some(args[1..])
  {
    OptionsAreNoFlags(tokens[0]);
    AssignedExactly(tokens[0]);
    if |tokens| > 1 { ValueExactly(tokens[0], tokens[1]); }
    hide IsFlag, TakesValue, IsAssigned, StartsWith, WellFormed;
    assert Spelled([]) == [] && args[1..] + [] == args[1..];
  }

  /** Whatever is read is written like that. */
  lemma {:induction false} ReadIsSpelled(tokens: seq<string>, args: seq<Arg>)
    requires Args(tokens) == Some(args)
    ensures tokens == Spelled(args) && AllWellFormed(args)
    decreases |tokens|
  {
    hide WellFormed;
    if tokens == [] {
      assert args == [];
    } else {
      hide Args;
      ReadFirst(tokens, args);
      var n := |Spelled([args[0]])|;
      ReadIsSpelled(tokens[n..], args[1..]);
      assert tokens == Spelled([args[0]]) + tokens[n..];
      assert Spelled([args[0]]) + Spelled(args[1..]) == Spelled(args);
    }
  }

  /** Whatever is written like that is read. */
  lemma {:induction false} SpelledIsRead(args: seq<Arg>)
    requires AllWellFormed(args)
    ensures Args(Spelled(args)) == Some(args)
  {
    if args != [] {
      var rest := Spelled(args[1..]);
      SpelledIsRead(args[1..]);
      assert WellFormed(args[0]);
      assert args == [args[0]] + args[1..];
      match args[0]
      case Flag(name) =>
        OptionsAreNoFlags(name);
        assert ([name] + rest)[1..] == rest;
      case Valued(option, value) =>
        OptionsAreNoFlags(option);
        ValueExactly(option, value);
        assert ([option, value] + rest)[2..] == rest;
      case Assigned(text) =>
        AssignedExactly(text);
        OptionsAreNoFlags(text);
        assert ([text] + rest)[1..] == rest;
    }
  }

  /** `cargo test`, perhaps with a toolchain between. */
  ghost predicate IsHead(head: seq<string>) {
    head == ["cargo", "test"] || exists name :: head == ["cargo", "+" + name, "test"]
  }

  /** The commands read, and how: a head and then arguments as they may be written, and no others. */
  lemma CommandExactly(tokens: seq<string>, args: seq<Arg>)
    ensures Command(tokens) == Some(args)
       <==> AllWellFormed(args) && exists head :: IsHead(head) && tokens == head + Spelled(args)
  {
    var at := After(tokens);
    hide AllWellFormed, Args;
    if Command(tokens) == Some(args) {
      var head := tokens[..at + 1];
      ReadIsSpelled(tokens[at + 1..], args);
      StartsExactly(tokens[1], "+");
      if at == 2 {
        var name :| tokens[1] == "+" + name;
        assert head == ["cargo", "+" + name, "test"];
      } else {
        assert head == ["cargo", "test"];
      }
      assert tokens == head + Spelled(args);
    }
    if AllWellFormed(args) && exists head :: IsHead(head) && tokens == head + Spelled(args) {
      var head :| IsHead(head) && tokens == head + Spelled(args);
      SpelledIsRead(args);
      StartsExactly(tokens[1], "+");
      assert tokens[1] == head[1];
      Prefixed("test", "+", 0);
      assert tokens[|head|..] == Spelled(args);
      assert tokens[|head| - 1] == "test";
    }
  }

  /** The packages are those named by either option or by assignment. */
  lemma {:induction false} PackagesExactly(args: seq<Arg>, x: string)
    requires AllWellFormed(args)
    ensures x in Packages(args)
       <==> Valued("-p", x) in args || Valued("--package", x) in args || Assigned("--package=" + x) in args
  {
    if args != [] {
      PackagesExactly(args[1..], x);
      assert args == [args[0]] + args[1..];
      if args[0].Assigned? {
        StartsExactly(args[0].text, "--package=");
        assert ("--package=" + x)[10..] == x;
        if StartsWith(args[0].text, "--package=") {
          assert args[0].text == "--package=" + args[0].text[10..];
        }
      }
    }
  }

  // ── The scanner ──────────────────────────────────────────────────────────

  method CompleteTestTokens(tokens: seq<string>) returns (ok: bool)
    ensures ok <==> Command(tokens).Some?
  {
    var at := After(tokens);
    if |tokens| <= at || tokens[0] != "cargo" || tokens[at] != "test" {
      return false;
    }
    var index := at + 1;
    while index < |tokens|
      invariant at + 1 <= index <= |tokens|
      invariant Args(tokens[index..]).Some? <==> Args(tokens[at + 1..]).Some?
      decreases |tokens| - index
    {
      hide IsFlag, TakesValue, IsAssigned;
      var token := tokens[index];
      ghost var rest := tokens[index..];
      assert rest[1..] == tokens[index + 1..];
      if IsFlag(token) {
        index := index + 1;
      } else if TakesValue(token) {
        if index + 1 >= |tokens| || StartsWith(tokens[index + 1], "-") {
          return false;
        }
        assert rest[2..] == tokens[index + 2..];
        index := index + 2;
      } else if IsAssigned(token) {
        index := index + 1;
      } else {
        return false;
      }
    }
    assert tokens[index..] == [];
    ok := true;
  }

  // ── The flat scan ────────────────────────────────────────────────────────

  function Follows(tokens: seq<string>): set<string> {
    set i | 0 <= i < |tokens| - 1 && IsPackageOption(tokens[i]) :: tokens[i + 1]
  }

  function AssignedPackages(tokens: seq<string>): set<string> {
    set i | 0 <= i < |tokens| && StartsWith(tokens[i], "--package=") :: tokens[i][10..]
  }

  function Scanned(tokens: seq<string>): set<string> {
    Follows(tokens) + AssignedPackages(tokens)
  }

  // No flag, option or plain word is mistaken for another.

  lemma Prefixed(s: string, prefix: string, k: nat)
    requires k < |prefix|
    ensures StartsWith(s, prefix) ==> k < |s| && s[k] == prefix[k]
  {
    if StartsWith(s, prefix) {
      assert s[..|prefix|][k] == s[k];
    }
  }

  lemma FlagsApart(s: string)
    requires IsFlag(s)
    ensures !TakesValue(s) && !StartsWith(s, "--package=")
  {
    Prefixed(s, "--package=", 2);
  }

  lemma OptionsApart(s: string)
    requires TakesValue(s)
    ensures s != "--workspace" && !StartsWith(s, "--package=")
  {
    Prefixed(s, "--package=", 2);
  }

  lemma AssignedApart(s: string)
    requires IsAssigned(s)
    ensures s != "--workspace"
  {
    Prefixed(s, "--package=", 2);
    Prefixed(s, "--features=", 2);
    Prefixed(s, "--jobs=", 2);
  }

  lemma WordsApart(s: string)
    requires !StartsWith(s, "-")
    ensures !IsPackageOption(s) && s != "--workspace" && !StartsWith(s, "--package=")
  {
  }

  /** What one more token in front adds to the scan. */
  lemma ScanFront(t: string, rest: seq<string>)
    ensures Scanned([t] + rest) == Scanned(rest)
              + (if IsPackageOption(t) && rest != [] then {rest[0]} else {})
              + (if StartsWith(t, "--package=") then {t[10..]} else {})
  {
    hide IsPackageOption;
    var all := [t] + rest;
    assert all[1..] == rest;
    forall i | 0 <= i < |rest| ensures all[i + 1] == rest[i] {}
    forall x | x in Scanned(rest) ensures x in Scanned(all) {
      if x in Follows(rest) {
        var i :| 0 <= i < |rest| - 1 && IsPackageOption(rest[i]) && rest[i + 1] == x;
        assert all[i + 1] == rest[i] && all[i + 2] == rest[i + 1];
      } else {
        var i :| 0 <= i < |rest| && StartsWith(rest[i], "--package=") && rest[i][10..] == x;
        assert all[i + 1] == rest[i];
      }
    }
    assert all[0] == t;
  }

  /** On arguments the grammar knows, the flat scan finds what the grammar finds. */
  lemma {:induction false} ScanArgs(tokens: seq<string>)
    requires Args(tokens).Some?
    ensures Scanned(tokens) == Packages(Args(tokens).value)
    ensures "--workspace" in tokens <==> WholeWorkspace(Args(tokens).value)
    decreases |tokens|
  {
    hide IsFlag, IsPackageOption, StartsWith, IsAssigned;
    if tokens != [] {
      var t, rest := tokens[0], tokens[1..];
      assert tokens == [t] + rest;
      ScanFront(t, rest);
      if IsFlag(t) {
        FlagsApart(t);
        ScanArgs(rest);
      } else if TakesValue(t) {
        OptionsApart(t);
        WordsApart(rest[0]);
        assert rest == [rest[0]] + tokens[2..];
        ScanFront(rest[0], tokens[2..]);
        ScanArgs(tokens[2..]);
      } else {
        AssignedApart(t);
        ScanArgs(rest);
      }
    }
  }

  /** Words in front of the arguments add nothing to the scan. */
  lemma {:induction false} ScanPastWords(words: seq<string>, rest: seq<string>)
    requires forall i :: 0 <= i < |words| ==> !StartsWith(words[i], "-")
    ensures Scanned(words + rest) == Scanned(rest)
    ensures "--workspace" in words + rest <==> "--workspace" in rest
  {
    hide StartsWith;
    if words == [] {
      assert words + rest == rest;
    } else {
      assert words + rest == [words[0]] + (words[1..] + rest);
      WordsApart(words[0]);
      ScanFront(words[0], words[1..] + rest);
      ScanPastWords(words[1..], rest);
    }
  }

  /** On every accepted command the flat scan reads exactly what the grammar reads. */
  lemma ScanIsExact(tokens: seq<string>)
    requires Command(tokens).Some?
    ensures Scanned(tokens) == Packages(Command(tokens).value)
    ensures "--workspace" in tokens <==> WholeWorkspace(Command(tokens).value)
  {
    var at := After(tokens);
    var words, rest := tokens[..at + 1], tokens[at + 1..];
    assert tokens == words + rest;
    forall i | 0 <= i < |words| ensures !StartsWith(words[i], "-") {
      Prefixed(words[i], "-", 0);
      Prefixed(words[i], "+", 0);
    }
    ScanPastWords(words, rest);
    ScanArgs(rest);
  }

  // ── Coverage of the live crates ──────────────────────────────────────────

  datatype Coverage = NoTests | Missing(crates: set<string>)

  predicate Tests(tokens: seq<string>, crate: string) {
    Command(tokens).Some? && (WholeWorkspace(Command(tokens).value) || crate in Packages(Command(tokens).value))
  }

  predicate Runs(commands: seq<seq<string>>) {
    exists i :: 0 <= i < |commands| && Command(commands[i]).Some?
  }

  predicate TestedBySome(commands: seq<seq<string>>, crate: string) {
    exists i :: 0 <= i < |commands| && Tests(commands[i], crate)
  }

  /** The crates of a job that no accepted command tests. */
  method CheckCoverage(commands: seq<seq<string>>, live: set<string>) returns (r: Coverage)
    ensures r.NoTests? <==> !Runs(commands)
    ensures r.Missing? ==> r.crates == set c | c in live && !TestedBySome(commands, c)
  {
    var accepted: seq<seq<string>> := [];
    var workspace := false;
    var tested: set<string> := {};
    for i := 0 to |commands|
      invariant accepted != [] <==> Runs(commands[..i])
      invariant workspace <==> SomeWorkspace(commands[..i])
      invariant forall c :: c in tested <==> NamedBySome(commands[..i], c)
    {
      NextCommand(commands, i);
      var ok := CompleteTestTokens(commands[i]);
      if ok {
        ScanIsExact(commands[i]);
        accepted := accepted + [commands[i]];
        workspace := workspace || "--workspace" in commands[i];
        tested := tested + Scanned(commands[i]);
      }
    }
    assert commands[..|commands|] == commands;
    if accepted == [] {
      return NoTests;
    }
    forall c ensures TestedBySome(commands, c) <==> workspace || c in tested {
      EitherWay(commands, c);
    }
    r := Missing(if workspace then {} else live - tested);
  }

  predicate SomeWorkspace(commands: seq<seq<string>>) {
    exists i :: 0 <= i < |commands| && Command(commands[i]).Some? && WholeWorkspace(Command(commands[i]).value)
  }

  predicate NamedBySome(commands: seq<seq<string>>, crate: string) {
    exists i :: 0 <= i < |commands| && Command(commands[i]).Some? && crate in Packages(Command(commands[i]).value)
  }

  lemma NextCommand(commands: seq<seq<string>>, i: nat)
    requires i < |commands|
    ensures Runs(commands[..i + 1]) <==> Runs(commands[..i]) || Command(commands[i]).Some?
    ensures SomeWorkspace(commands[..i + 1]) <==>
      SomeWorkspace(commands[..i]) || (Command(commands[i]).Some? && WholeWorkspace(Command(commands[i]).value))
    ensures forall c :: NamedBySome(commands[..i + 1], c) <==>
      NamedBySome(commands[..i], c) || (Command(commands[i]).Some? && c in Packages(Command(commands[i]).value))
  {
    hide Command, WholeWorkspace, Packages;
    var a, b := commands[..i], commands[..i + 1];
    assert b == a + [commands[i]];
    assert b[i] == commands[i];
    assert forall k :: 0 <= k < |a| ==> b[k] == a[k];
  }

  lemma EitherWay(commands: seq<seq<string>>, crate: string)
    ensures TestedBySome(commands, crate) <==> SomeWorkspace(commands) || NamedBySome(commands, crate)
  {
    hide Command, WholeWorkspace, Packages;
    if SomeWorkspace(commands) {
      var i :| 0 <= i < |commands| && Command(commands[i]).Some? && WholeWorkspace(Command(commands[i]).value);
      assert Tests(commands[i], crate);
    }
    if NamedBySome(commands, crate) {
      var i :| 0 <= i < |commands| && Command(commands[i]).Some? && crate in Packages(Command(commands[i]).value);
      assert Tests(commands[i], crate);
    }
  }
}
