/**
 * Startup: the command-line check of the server's Main, and the discovery
 * line the process writes to its named pipe for the server manager.
 */
module Startup {
  import opened Wrappers
  import Strings
  import Numbers

  /** Server name, port and admin password, in command-line order except for the port's type. */
  datatype Config = Config(name: string, port: int, adminPassword: string)

  /** The four reasons Main exits with an error, in the order it checks them. */
  datatype StartupError = WrongArgumentCount | PortNotNumber | PortOutOfRange | InvalidName

  const MinPort: int := 1000
  const MaxPort: int := 65535

  /** The character class [a-zA-Z0-9_\-.]. */
  predicate NameChar(c: char)
  {
    'a' <= c <= 'z' || 'A' <= c <= 'Z' || '0' <= c <= '9' || c == '_' || c == '-' || c == '.'
  }

  predicate NameBody(t: string)
  {
    |t| > 0 && forall i | 0 <= i < |t| :: NameChar(t[i])
  }

  /** Regex.IsMatch(name, @"^[a-zA-Z0-9_\-.]+$"). */
  predicate ValidName(name: string)
  {
    Strings.AnchoredMatch(name, NameBody)
  }

  /**
   * The checks of Main: exactly three arguments, a port that int.TryParse
   * accepts and that lies in [1000, 65535], and a name of the allowed characters.
   */
  function ValidateArgs(args: seq<string>): (r: Result<Config, StartupError>)
    ensures r.Success? <==>
      && |args| == 3
      && Numbers.TryParseInt32(args[1]).Some?
      && MinPort <= Numbers.TryParseInt32(args[1]).value <= MaxPort
      && ValidName(args[0])
    ensures r.Success? ==> r.value == Config(args[0], Numbers.TryParseInt32(args[1]).value, args[2])
    ensures r.Success? ==> 0 < r.value.port < 0x1_0000
    ensures |args| != 3 ==> r == Failure(WrongArgumentCount)
    ensures r == Failure(InvalidName) ==> !ValidName(args[0])
    ensures r == Failure(PortOutOfRange) ==> Numbers.TryParseInt32(args[1]).Some?
  {
    if |args| != 3 then Failure(WrongArgumentCount)
    else
      match Numbers.TryParseInt32(args[1])
      case None => Failure(PortNotNumber)
      case Some(port) =>
        if port < MinPort || port > MaxPort then Failure(PortOutOfRange)
        else if !ValidName(args[0]) then Failure(InvalidName)
        else Success(Config(args[0], port, args[2]))
  }

  /** PipeHandler's reply: Name + ":" + Port + "\r\n". */
  function DiscoveryLine(c: Config): (line: string)
    requires c.port >= 0
    ensures |line| > |c.name| + 2 && line[..|c.name|] == c.name && line[|c.name|] == ':'
    ensures line[|line| - 2..] == "\r\n"
  {
    c.name + ":" + Numbers.NatToString(c.port) + "\r\n"
  }

  /** An accepted name has no colon or space, not even in the trailing newline the anchor lets through. */
  lemma ValidNameHasNoColon(name: string)
    requires ValidName(name)
    ensures ':' !in name && ' ' !in name
  {
    forall i | 0 <= i < |name|
      ensures name[i] != ':' && name[i] != ' '
    {
      if NameBody(name) {
        assert NameChar(name[i]);
      } else if i < |name| - 1 {
        assert NameChar(name[..|name| - 1][i]);
      }
    }
  }

  /** The port text and line ending carry no colon. */
  lemma PortTextHasNoColon(port: nat)
    ensures ':' !in Numbers.NatToString(port) + "\r\n"
  {
    var digits := Numbers.NatToString(port);
    var tail := digits + "\r\n";
    forall i | 0 <= i < |tail|
      ensures tail[i] != ':'
    {
      if i < |digits| {
        assert Numbers.IsDigit(digits[i]);
      }
    }
  }

  /** Int32.Parse of the second chunk gives the port back. */
  lemma PortChunkParses(port: int)
    requires MinPort <= port <= MaxPort
    ensures Numbers.TryParseInt32(Numbers.NatToString(port) + "\r\n") == Some(port)
  {
    assert Numbers.IsNumberWhiteSpace('\r') && Numbers.IsNumberWhiteSpace('\n');
    Numbers.ParseNatToString(port, "\r\n");
  }

  /**
   * The server manager splits the line on ':' and wants two chunks, the second
   * parsing as the port: every accepted configuration gives exactly that.
   */
  lemma DiscoveryLineParses(c: Config)
    requires ValidName(c.name) && MinPort <= c.port <= MaxPort
    ensures var chunks := Strings.Split(DiscoveryLine(c), ':');
            && chunks == [c.name, Numbers.NatToString(c.port) + "\r\n"]
            && Numbers.TryParseInt32(chunks[1]) == Some(c.port)
  {
    DiscoveryLineSplits(c);
    PortChunkParses(c.port);
  }

  /** The colon after the name is the only one in the reply. */
  lemma DiscoveryLineSplits(c: Config)
    requires ValidName(c.name) && 0 <= c.port
    ensures Strings.Split(DiscoveryLine(c), ':') == [c.name, Numbers.NatToString(c.port) + "\r\n"]
  {
    var tail := Numbers.NatToString(c.port) + "\r\n";
    var line := DiscoveryLine(c);
    ValidNameHasNoColon(c.name);
    PortTextHasNoColon(c.port);
    assert line == c.name + [':'] + tail;
    Strings.SplitAtFirstSeparator(c.name, tail, ':');
    Strings.SplitWithoutSeparator(tail, ':');
  }

  /** The non-empty pieces, in order. */
  function NonEmptyPieces(parts: seq<string>): (r: seq<string>)
    ensures forall i | 0 <= i < |r| :: r[i] != "" && r[i] in parts
    ensures (forall i | 0 <= i < |parts| :: parts[i] != "") ==> r == parts
  {
    if |parts| == 0 then []
    else if parts[0] == "" then NonEmptyPieces(parts[1..])
    else [parts[0]] + NonEmptyPieces(parts[1..])
  }

  /**
   * The argument vector a process receives for a command line without quotes
   * or tabs: the words between spaces, where runs of spaces and leading or
   * trailing spaces produce no argument.
   */
  function CommandLineArgs(line: string): (args: seq<string>)
    ensures forall i | 0 <= i < |args| :: args[i] != "" && ' ' !in args[i]
  {
    NonEmptyPieces(Strings.Split(line, ' '))
  }

  /** ServerManager.StartServer's Arguments: name, port and password joined with single spaces. */
  function ManagerCommandLine(name: string, port: nat, pass: string): (line: string)
    ensures line == Strings.Join(" ", [name, Numbers.NatToString(port), pass])
  {
    var digits := Numbers.NatToString(port);
    var parts := [name, digits, pass];
    assert parts[1..] == [digits, pass] && [digits, pass][1..] == [pass];
    assert Strings.Join(" ", [digits, pass]) == digits + " " + pass;
    name + " " + (digits + " " + pass)
  }

  /**
   * The server manager's command line is accepted, with every part intact,
   * whenever the name is valid, the port in range and the password one
   * non-empty word, as Main's own documentation asks of it.
   */
  lemma ManagerArgumentsAccepted(name: string, port: nat, pass: string)
    requires ValidName(name) && MinPort <= port <= MaxPort
    requires pass != "" && ' ' !in pass
    ensures CommandLineArgs(ManagerCommandLine(name, port, pass)) == [name, Numbers.NatToString(port), pass]
    ensures ValidateArgs(CommandLineArgs(ManagerCommandLine(name, port, pass))) == Success(Config(name, port, pass))
  {
    ManagerLineSplits(name, port, pass);
    ValidArgumentsAccepted(name, port, pass);
  }

  /** The three parts of the manager's command line come back as the argument vector. */
  lemma ManagerLineSplits(name: string, port: nat, pass: string)
    requires ValidName(name) && pass != "" && ' ' !in pass
    ensures CommandLineArgs(ManagerCommandLine(name, port, pass)) == [name, Numbers.NatToString(port), pass]
  {
    var digits := Numbers.NatToString(port);
    ValidNameHasNoColon(name);
    forall i | 0 <= i < |digits|
      ensures digits[i] != ' '
    {
      assert Numbers.IsDigit(digits[i]);
    }
    WordsSurviveTheLine([name, digits, pass]);
  }

  /** A valid name, the written port and any password pass Main's checks. */
  lemma ValidArgumentsAccepted(name: string, port: nat, pass: string)
    requires ValidName(name) && MinPort <= port <= MaxPort
    ensures ValidateArgs([name, Numbers.NatToString(port), pass]) == Success(Config(name, port, pass))
  {
    var digits := Numbers.NatToString(port);
    Numbers.ParseWritten(port);
    var args := [name, digits, pass];
    assert |args| == 3 && args[0] == name && args[1] == digits && args[2] == pass;
    assert Numbers.TryParseInt32(args[1]) == Some(port);
  }

  /** Non-empty words without spaces, joined with single spaces, come back as the argument vector. */
  lemma WordsSurviveTheLine(words: seq<string>)
    requires |words| >= 1
    requires forall i | 0 <= i < |words| :: words[i] != "" && ' ' !in words[i]
    ensures CommandLineArgs(Strings.Join(" ", words)) == words
  {
    Strings.SplitJoin(words, ' ');
    assert [' '] == " ";
  }

  /**
   * An empty password, or one with a space, never reaches the server intact:
   * Main either counts the wrong number of arguments or sees another password.
   */
  lemma ManagerPasswordMustBeOneWord(name: string, port: nat, pass: string)
    ensures pass == "" || ' ' in pass ==>
      ValidateArgs(CommandLineArgs(ManagerCommandLine(name, port, pass))) != Success(Config(name, port, pass))
  {
  }

  /** A name with a space or a colon in it is never valid. */
  lemma SpaceOrColonRejected(name: string)
    ensures ' ' in name || ':' in name ==> !ValidName(name)
  {
    if ValidName(name) {
      ValidNameHasNoColon(name);
    }
  }
}
