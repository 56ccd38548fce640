/** Finding the command that a command line names
    (internal/cli/resolve.go:14-96 and internal/cli/command.go:34-51). */
module CliResolve {
  import opened Identifiers

  datatype Command = Command(name: string, usage: string, children: seq<Command>, runnable: bool)

  datatype Error =
    | NilRoot
    | UnknownTopic(topic: seq<string>, usage: string)
    | ArgumentsAfterHelp(extra: seq<string>, usage: string)
    | UnknownCommand(name: string, usage: string)
    | MissingCommand(name: string, usage: string)

  datatype Result<+T> = Ok(value: T) | Err(error: Error)

  datatype Resolved = Resolved(command: Command, args: seq<string>, help: bool)

  // ---------------------------------------------------------------- the tree

  /** The first child with the name. */
  function FirstNamed(children: seq<Command>, name: string): (r: Option<Command>)
    ensures r.Some? ==> r.value in children
    ensures r.Some? ==> exists i :: 0 <= i < |children| && children[i] == r.value && r.value.name == name
                                    && forall j :: 0 <= j < i ==> children[j].name != name
    ensures r.None? ==> forall j :: 0 <= j < |children| ==> children[j].name != name
  {
    if children == [] then None
    else if children[0].name == name then Some(children[0])
    else FirstNamed(children[1..], name)
  }

  function Child(cmd: Command, name: string): (r: Option<Command>)
    ensures r.Some? ==> r.value in cmd.children
  {
    FirstNamed(cmd.children, name)
  }

  /** The command that a path of names leads to. */
  function Node(root: Command, path: seq<string>): Option<Command> {
    if path == [] then Some(root)
    else
      var child := Child(root, path[0]);
      if child.None? then None else Node(child.value, path[1..])
  }

  /** A word that is taken for the name of a command. */
  predicate PathWord(word: string) {
    !("-" <= word) && word != "help"
  }

  predicate PathWords(path: seq<string>) {
    forall i :: 0 <= i < |path| ==> PathWord(path[i])
  }

  predicate ValidPath(root: Command, path: seq<string>) {
    PathWords(path) && Node(root, path).Some?
  }

  lemma {:induction false} NodeExtends(root: Command, path: seq<string>, name: string)
    ensures Node(root, path + [name]) == if Node(root, path).None? then None else Child(Node(root, path).value, name)
  {
    if path == [] {
      assert path + [name] == [name];
    } else if Child(root, path[0]).Some? {
      NodeExtends(Child(root, path[0]).value, path[1..], name);
      assert (path + [name])[1..] == path[1..] + [name];
    }
  }

  // ---------------------------------------------------------------- walk

  /** Going on from a command, `top` while it is still the root. */
  function WalkFrom(cmd: Command, args: seq<string>, top: bool): Result<(Command, seq<string>)> {
    if args == [] || !PathWord(args[0]) then Ok((cmd, args))
    else
      var child := Child(cmd, args[0]);
      if child.Some? then WalkFrom(child.value, args[1..], false)
      else if top || cmd.children != [] then Err(UnknownCommand(args[0], cmd.usage))
      else Ok((cmd, args))
  }

  method Walk(root: Command, args: seq<string>) returns (r: Result<(Command, seq<string>)>)
    ensures r == WalkFrom(root, args, true)
  {
    var cmd := root;
    for i := 0 to |args|
      invariant WalkFrom(root, args, true) == WalkFrom(cmd, args[i..], i == 0)
    {
      assert args[i..][0] == args[i] && args[i..][1..] == args[i + 1..];
      if "-" <= args[i] {
        return Ok((cmd, args[i..]));
      }
      if args[i] == "help" {
        return Ok((cmd, args[i..]));
      }
      var child := Child(cmd, args[i]);
      if child.None? {
        if i == 0 || |cmd.children| > 0 {
          return Err(UnknownCommand(args[i], cmd.usage));
        }
        return Ok((cmd, args[i..]));
      }
      cmd := child.value;
    }
    r := Ok((cmd, []));
  }

  /** The walk may end at a command with these arguments left. */
  predicate Stops(cmd: Command, rest: seq<string>, top: bool) {
    rest == [] || !PathWord(rest[0]) || (!top && cmd.children == [])
  }

  /** The first `n` arguments lead to `cmd`, and the walk ends there. */
  predicate Split(root: Command, args: seq<string>, n: nat, cmd: Command) {
    && n <= |args| && PathWords(args[..n]) && Node(root, args[..n]) == Some(cmd)
    && Stops(cmd, args[n..], n == 0)
  }

  /** The first `n` arguments lead to `cmd`, where the next is not known. */
  predicate Stuck(root: Command, args: seq<string>, n: nat, cmd: Command) {
    && n < |args| && PathWords(args[..n + 1]) && Node(root, args[..n]) == Some(cmd)
    && Child(cmd, args[n]).None? && (n == 0 || cmd.children != [])
  }

  /** Every argument list splits into a path of child names and an untouched rest, or
      is stuck at a name that is not known. */
  lemma {:induction false} WalkSplits(root: Command, args: seq<string>) returns (n: nat, cmd: Command)
    ensures n <= |args|
    ensures match WalkFrom(root, args, true)
            case Ok(found) => found == (cmd, args[n..]) && Split(root, args, n, cmd)
            case Err(error) => Stuck(root, args, n, cmd) && error == UnknownCommand(args[n], cmd.usage)
  {
    n, cmd := 0, root;
    while n < |args| && PathWord(args[n]) && Child(cmd, args[n]).Some?
      invariant n <= |args| && PathWords(args[..n]) && Node(root, args[..n]) == Some(cmd)
      invariant WalkFrom(root, args, true) == WalkFrom(cmd, args[n..], n == 0)
    {
      NodeExtends(root, args[..n], args[n]);
      assert args[..n] + [args[n]] == args[..n + 1];
      assert args[n..][1..] == args[n + 1..];
      n, cmd := n + 1, Child(cmd, args[n]).value;
    }
    if n < |args| && PathWord(args[n]) {
      assert args[..n + 1] == args[..n] + [args[n]];
    }
  }

  /** And the way it splits, or is stuck, decides the walk. */
  lemma {:induction false} SplitDecides(root: Command, args: seq<string>, n: nat, cmd: Command)
    requires Split(root, args, n, cmd) || Stuck(root, args, n, cmd)
    ensures Split(root, args, n, cmd) ==> WalkFrom(root, args, true) == Ok((cmd, args[n..]))
    ensures Stuck(root, args, n, cmd) ==> WalkFrom(root, args, true) == Err(UnknownCommand(args[n], cmd.usage))
  {
    WalkAlong(root, args, n, true);
    if Stuck(root, args, n, cmd) {
      assert args[..n + 1][n] == args[n];
    }
  }

  lemma {:induction false} WalkAlong(cmd: Command, args: seq<string>, n: nat, top: bool)
    requires n <= |args| && Node(cmd, args[..n]).Some? && PathWords(args[..n])
    ensures WalkFrom(cmd, args, top) == WalkFrom(Node(cmd, args[..n]).value, args[n..], top && n == 0)
  {
    if n == 0 {
      assert args[0..] == args;
    } else {
      assert args[..n][0] == args[0] && args[..n][1..] == args[1..][..n - 1];
      assert PathWords(args[..n][1..]);
      WalkAlong(Child(cmd, args[0]).value, args[1..], n - 1, false);
      assert args[1..][n - 1..] == args[n..];
    }
  }

  // ---------------------------------------------------------------- resolve

  predicate IsHelpFlag(arg: string) {
    arg == "--help" || arg == "-h"
  }

  predicate Asks(args: seq<string>) {
    exists i :: 0 <= i < |args| && IsHelpFlag(args[i])
  }

  method HasHelpFlag(args: seq<string>) returns (found: bool)
    ensures found == Asks(args)
  {
    for i := 0 to |args|
      invariant forall j :: 0 <= j < i ==> !IsHelpFlag(args[j])
    {
      if args[i] == "--help" || args[i] == "-h" {
        return true;
      }
    }
    found := false;
  }

  function Resolve(root: Option<Command>, args: seq<string>): Result<Resolved> {
    if root.None? then Err(NilRoot)
    else if args == [] then Ok(Resolved(root.value, [], true))
    else if args[0] == "help" then
      if |args| == 1 then Ok(Resolved(root.value, [], true))
      else
        match WalkFrom(root.value, args[1..], true)
        case Err(error) => Err(error)
        case Ok((cmd, rest)) =>
          if rest != [] then Err(UnknownTopic(args[1..], root.value.usage)) else Ok(Resolved(cmd, [], true))
    else
      match WalkFrom(root.value, args, true)
      case Err(error) => Err(error)
      case Ok((cmd, rest)) =>
        if rest != [] && rest[0] == "help" then
          if |rest| > 1 then Err(ArgumentsAfterHelp(rest[1..], cmd.usage)) else Ok(Resolved(cmd, [], true))
        else if Asks(rest) then Ok(Resolved(cmd, [], true))
        else if !cmd.runnable then Err(MissingCommand(cmd.name, cmd.usage))
        else Ok(Resolved(cmd, rest, false))
  }

  /** `resolve`, with its walk and its search for a flag. */
  method ResolveCommand(root: Option<Command>, args: seq<string>) returns (r: Result<Resolved>)
    ensures r == Resolve(root, args)
  {
    if root.None? {
      return Err(NilRoot);
    }
    if |args| == 0 {
      return Ok(Resolved(root.value, [], true));
    }
    if args[0] == "help" {
      if |args| == 1 {
        return Ok(Resolved(root.value, [], true));
      }
      var walked := Walk(root.value, args[1..]);
      if walked.Err? {
        return Err(walked.error);
      }
      if |walked.value.1| > 0 {
        return Err(UnknownTopic(args[1..], root.value.usage));
      }
      return Ok(Resolved(walked.value.0, [], true));
    }
    var walked := Walk(root.value, args);
    if walked.Err? {
      return Err(walked.error);
    }
    var (cmd, rest) := walked.value;
    if |rest| > 0 && rest[0] == "help" {
      if |rest| > 1 {
        return Err(ArgumentsAfterHelp(rest[1..], cmd.usage));
      }
      return Ok(Resolved(cmd, [], true));
    }
    var help := HasHelpFlag(rest);
    if help {
      return Ok(Resolved(cmd, [], true));
    }
    if !cmd.runnable {
      return Err(MissingCommand(cmd.name, cmd.usage));
    }
    r := Ok(Resolved(cmd, rest, false));
  }

  /** The walk along a valid path, up to a word that ends it. */
  lemma WalkPath(root: Command, path: seq<string>, rest: seq<string>)
    requires ValidPath(root, path) && (rest == [] || !PathWord(rest[0]))
    ensures WalkFrom(root, path + rest, true) == Ok((Node(root, path).value, rest))
  {
    var args := path + rest;
    assert args[..|path|] == path && args[|path|..] == rest;
    WalkAlong(root, args, |path|, true);
  }

  /** For every valid path the four ways of asking for help name the same command. */
  lemma HelpFormsAgree(root: Command, path: seq<string>)
    requires ValidPath(root, path)
    ensures var help := Ok(Resolved(Node(root, path).value, [], true));
            && Resolve(Some(root), ["help"] + path) == help
            && Resolve(Some(root), path + ["help"]) == help
            && Resolve(Some(root), path + ["--help"]) == help
            && Resolve(Some(root), path + ["-h"]) == help
  {
    assert (["help"] + path)[1..] == path;
    assert path + [] == path;
    WalkPath(root, path, []);
    WalkPath(root, path, ["help"]);
    WalkPath(root, path, ["--help"]);
    WalkPath(root, path, ["-h"]);
    assert IsHelpFlag(["--help"][0]) && IsHelpFlag(["-h"][0]);
    assert path != [] ==> PathWord(path[0]);
    if path == [] {
      assert ["help"] + path == ["help"] && path + ["help"] == ["help"];
    }
  }

  /** `help` in front accepts nothing but a valid path. */
  lemma HelpTakesOnlyPaths(root: Command, topic: seq<string>)
    ensures Resolve(Some(root), ["help"] + topic).Ok? <==> ValidPath(root, topic)
    ensures Resolve(Some(root), ["help"] + topic).Ok? ==>
              Resolve(Some(root), ["help"] + topic).value == Resolved(Node(root, topic).value, [], true)
  {
    assert (["help"] + topic)[1..] == topic;
    if ValidPath(root, topic) {
      HelpFormsAgree(root, topic);
    } else {
      var n, cmd := WalkSplits(root, topic);
      assert topic[..|topic|] == topic;
    }
  }

  /** What a command line that does not start with `help` comes to, by the command that its
      words lead to and the rest. An unknown name is refused with the usage of the
      command before it. A rest that asks for help shows that of the command. A command
      that only groups others is refused, and any other runs. */
  lemma SplitResolves(root: Command, args: seq<string>, n: nat, cmd: Command)
    requires args != [] && args[0] != "help"
    ensures Stuck(root, args, n, cmd) ==> Resolve(Some(root), args) == Err(UnknownCommand(args[n], cmd.usage))
    ensures Split(root, args, n, cmd) ==>
              var rest := args[n..];
              && (rest == ["help"] || (Asks(rest) && rest[0] != "help") ==> Resolve(Some(root), args) == Ok(Resolved(cmd, [], true)))
              && (|rest| > 1 && rest[0] == "help" ==> Resolve(Some(root), args) == Err(ArgumentsAfterHelp(rest[1..], cmd.usage)))
              && (!Asks(rest) && (rest == [] || rest[0] != "help") ==>
                    Resolve(Some(root), args) == if cmd.runnable then Ok(Resolved(cmd, rest, false)) else Err(MissingCommand(cmd.name, cmd.usage)))
  {
    if Stuck(root, args, n, cmd) || Split(root, args, n, cmd) {
      SplitDecides(root, args, n, cmd);
    }
  }

  /** And one that starts with `help`, or is empty: the help of the root when nothing
      follows, that of the command that a path leads to, and otherwise an error with the
      usage of the last command known or, for words after the path, of the root. */
  lemma HelpResolves(root: Command, topic: seq<string>, n: nat, cmd: Command)
    ensures Resolve(Some(root), []) == Resolve(Some(root), ["help"]) == Ok(Resolved(root, [], true))
    ensures Stuck(root, topic, n, cmd) ==> Resolve(Some(root), ["help"] + topic) == Err(UnknownCommand(topic[n], cmd.usage))
    ensures Split(root, topic, n, cmd) ==>
              Resolve(Some(root), ["help"] + topic)
              == if n == |topic| then Ok(Resolved(cmd, [], true)) else Err(UnknownTopic(topic, root.usage))
    ensures Resolve(None, topic) == Err(NilRoot)
  {
    assert (["help"] + topic)[1..] == topic;
    if Stuck(root, topic, n, cmd) || Split(root, topic, n, cmd) {
      SplitDecides(root, topic, n, cmd);
    }
  }

  /** Options and the word `help` name no command, and every other word may. */
  lemma PathWordExactly(word: string)
    ensures PathWord(word) <==> (word == "" || word[0] != '-') && word != "help"
  {
  }

  /** A command is run exactly when a path of child names leads to it and the rest,
      which it gets untouched, asks for no help; any other command line shows help or
      is refused. */
  lemma RunsExactly(root: Command, args: seq<string>, cmd: Command, rest: seq<string>)
    ensures Resolve(Some(root), args) == Ok(Resolved(cmd, rest, false)) <==>
            && args != []
            && (exists n :: 0 <= n <= |args| && Split(root, args, n, cmd) && rest == args[n..])
            && (rest == [] || rest[0] != "help") && !Asks(rest) && args[0] != "help" && cmd.runnable
  {
    var n, at := WalkSplits(root, args);
    forall m | 0 <= m <= |args| && Split(root, args, m, cmd)
      ensures WalkFrom(root, args, true) == Ok((cmd, args[m..]))
    {
      SplitDecides(root, args, m, cmd);
    }
  }
}
