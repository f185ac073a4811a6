/**
  The password file `$ACAREA/<username>.dat`: one `server password` pair per
  line, read with Python 2's `str.split()` and `dict()`.
 */
module PasswordFile {
  import opened Wrappers

  /** The characters Python 2's `str.split()` splits on. */
  predicate IsSpace(c: char) {
    c == ' ' || c == '\t' || c == '\n' || c == '\r' || c == '\U{0B}' || c == '\U{0C}'
  }

  predicate AllSpace(s: string) {
    forall i :: 0 <= i < |s| ==> IsSpace(s[i])
  }

  /** A token of `split()`: non-empty, without whitespace. */
  predicate IsWord(s: string) {
    s != [] && forall i :: 0 <= i < |s| ==> !IsSpace(s[i])
  }

  /** The length of the run of non-space characters that starts `s`. */
  function WordLength(s: string): (n: nat)
    ensures n <= |s|
    ensures forall i | 0 <= i < n :: !IsSpace(s[i])
    ensures n < |s| ==> IsSpace(s[n])
    decreases |s|
  {
    if s == [] || IsSpace(s[0]) then 0 else 1 + WordLength(s[1..])
  }

  /** `s.split()`: the maximal runs of non-space characters, in order. */
  function Split(s: string): (tokens: seq<string>)
    ensures forall i | 0 <= i < |tokens| :: IsWord(tokens[i])
    ensures tokens == [] <==> AllSpace(s)
    decreases |s|
  {
    if s == [] then []
    else if IsSpace(s[0]) then
      var r := Split(s[1..]);
      assert AllSpace(s[1..]) ==> AllSpace(s) by {
        if AllSpace(s[1..]) {
          forall i | 0 <= i < |s|
            ensures IsSpace(s[i])
          {
            if i > 0 {
              assert s[i] == s[1..][i - 1];
            }
          }
        }
      }
      r
    else
      var n := WordLength(s);
      [s[..n]] + Split(s[n..])
  }

  lemma {:induction false} SplitAfterSpaces(ws: string, rest: string)
    requires AllSpace(ws)
    ensures Split(ws + rest) == Split(rest)
    decreases |ws|
  {
    if ws != [] {
      assert (ws + rest)[0] == ws[0];
      assert (ws + rest)[1..] == ws[1..] + rest;
      assert forall i | 0 <= i < |ws| - 1 :: ws[1..][i] == ws[i + 1];
      SplitAfterSpaces(ws[1..], rest);
    } else {
      assert ws + rest == rest;
    }
  }

  lemma {:induction false} WordLengthOf(w: string, rest: string)
    requires IsWord(w) && (rest == [] || IsSpace(rest[0]))
    ensures WordLength(w + rest) == |w|
    decreases |w|
  {
    if |w| > 1 {
      assert (w + rest)[1..] == w[1..] + rest;
      WordLengthOf(w[1..], rest);
    } else {
      assert (w + rest)[1..] == rest;
    }
  }

  lemma SplitAfterWord(w: string, rest: string)
    requires IsWord(w) && (rest == [] || IsSpace(rest[0]))
    ensures Split(w + rest) == [w] + Split(rest)
  {
    WordLengthOf(w, rest);
    assert (w + rest)[..|w|] == w;
    assert (w + rest)[|w|..] == rest;
  }

  /**
    A line laid out as tokens separated by whitespace, with whitespace
    (possibly none) at either end: `gaps[i]` precedes `toks[i]`, and the last
    gap trails.
   */
  function Layout(toks: seq<string>, gaps: seq<string>): string
    requires |gaps| == |toks| + 1
    decreases |toks|
  {
    if toks == [] then gaps[0] else gaps[0] + toks[0] + Layout(toks[1..], gaps[1..])
  }

  predicate WellSpaced(toks: seq<string>, gaps: seq<string>) {
    && |gaps| == |toks| + 1
    && (forall i | 0 <= i < |toks| :: IsWord(toks[i]))
    && (forall i | 0 <= i < |gaps| :: AllSpace(gaps[i]))
    && (forall i | 0 < i < |toks| :: gaps[i] != [])
  }

  /** `split()` recovers the tokens of any line laid out with whitespace between them. */
  lemma {:induction false} SplitLayout(toks: seq<string>, gaps: seq<string>)
    requires WellSpaced(toks, gaps)
    ensures Split(Layout(toks, gaps)) == toks
    decreases |toks|
  {
    if toks == [] {
      SplitAfterSpaces(gaps[0], []);
      assert gaps[0] + [] == gaps[0];
    } else {
      var rest := Layout(toks[1..], gaps[1..]);
      assert WellSpaced(toks[1..], gaps[1..]) by {
        assert forall i | 0 <= i < |toks[1..]| :: toks[1..][i] == toks[i + 1];
        assert forall i | 0 <= i < |gaps[1..]| :: gaps[1..][i] == gaps[i + 1];
      }
      SplitLayout(toks[1..], gaps[1..]);
      assert rest == [] || IsSpace(rest[0]) by {
        if |toks| > 1 {
          assert rest == gaps[1] + toks[1] + Layout(toks[2..], gaps[2..]);
          assert gaps[1] != [];
        } else {
          assert rest == gaps[1];
        }
      }
      assert gaps[0] + toks[0] + rest == gaps[0] + (toks[0] + rest);
      SplitAfterSpaces(gaps[0], toks[0] + rest);
      SplitAfterWord(toks[0], rest);
    }
  }

  /**
    `dict([l.split() for l in lines])`: `None` when some line does not split
    into exactly two tokens (`dict()` raises `ValueError`); a server named on
    several lines gets the password of the last one.
   */
  function PasswordMap(lines: seq<string>): (r: Option<map<string, string>>)
    ensures r.Some? <==> forall i | 0 <= i < |lines| :: |Split(lines[i])| == 2
    decreases |lines|
  {
    if lines == [] then Some(map[])
    else
      var front := PasswordMap(lines[..|lines| - 1]);
      var t := Split(lines[|lines| - 1]);
      assert forall i | 0 <= i < |lines| - 1 :: lines[..|lines| - 1][i] == lines[i];
      if front.None? || |t| != 2 then None
      else Some(front.value[t[0] := t[1]])
  }

  /** Whether the line's first token is `server`. */
  predicate Names(line: string, server: string) {
    |Split(line)| >= 1 && Split(line)[0] == server
  }

  /** The index of the last line that names `server`, or -1 when none does. */
  function LastLineFor(lines: seq<string>, server: string): (i: int)
    ensures -1 <= i < |lines|
    ensures i >= 0 ==> Names(lines[i], server)
    ensures forall j | i < j < |lines| :: !Names(lines[j], server)
    decreases |lines|
  {
    if lines == [] then -1
    else if Names(lines[|lines| - 1], server) then |lines| - 1
    else
      var i := LastLineFor(lines[..|lines| - 1], server);
      assert forall j | i < j < |lines| - 1 :: lines[..|lines| - 1][j] == lines[j];
      i
  }

  /**
    In a file that parses, a server has a password exactly when some line
    names it, and the password is the second token of the last such line.
   */
  lemma {:induction false} PasswordOfLastLine(lines: seq<string>, server: string)
    requires PasswordMap(lines).Some?
    ensures var m := PasswordMap(lines).value;
      var i := LastLineFor(lines, server);
      && (server in m <==> i >= 0)
      && (server in m ==> m[server] == Split(lines[i])[1])
    decreases |lines|
  {
    if lines != [] {
      var front := lines[..|lines| - 1];
      assert forall j | 0 <= j < |front| :: front[j] == lines[j];
      PasswordOfLastLine(front, server);
    }
  }
}

/**
  The credentials `init` resolves before it binds the database URL, as a
  function of the environment, the arguments and the password file.
 */
module Configuration {
  import opened Wrappers
  import opened PasswordFile
  import opened Connection

  /** `InvalidConfiguration`, with its message. */
  datatype InvalidConfiguration = InvalidConfiguration(message: string)

  /** The username and password `init` passes on; SQLite leaves both as the caller gave them. */
  datatype Credentials = Credentials(username: Option<string>, password: Option<string>)

  const DefaultAcarea: string := "/usr/local/sybase/stbin"

  const UsernameMessage: string := "Unable to derive username" + " from either $USER or $LOGNAME."

  function AccessMessage(path: string): string {
    "Unable to access " + path + " to retrieve the database password."
  }

  function MissingMessage(server: string, path: string): string {
    "Unable to find password for " + server + " in " + path + "."
  }

  /** `os.environ.get('ACAREA', '/usr/local/sybase/stbin')`. */
  function Acarea(env: map<string, string>): string {
    if "ACAREA" in env then env["ACAREA"] else DefaultAcarea
  }

  /** `os.path.join(acarea, '<username>.dat')`, with `os.path.join` a parameter. */
  function PasswordPath(env: map<string, string>, username: string, join: (string, string) -> string): string {
    join(Acarea(env), username + ".dat")
  }

  /** The explicit username, else `$USER`, else `$LOGNAME`. */
  function ResolveUsername(env: map<string, string>, username: Option<string>): (r: Result<string, InvalidConfiguration>)
    ensures r.Failure? <==> username.None? && "USER" !in env && "LOGNAME" !in env
    ensures r.Failure? ==> r.error == InvalidConfiguration(UsernameMessage)
    ensures r.Success? && username.None? ==> r.value in env.Values
  {
    if username.Some? then Success(username.value)
    else if "USER" in env then Success(env["USER"])
    else if "LOGNAME" in env then Success(env["LOGNAME"])
    else Failure(InvalidConfiguration(UsernameMessage))
  }

  /**
    The password for `server` from the file at `path`; `readFile` gives the
    file's lines, or `None` when it cannot be opened.
   */
  function FilePassword(server: string, path: string, readFile: string -> Option<seq<string>>): (r: Result<string, InvalidConfiguration>)
    ensures r.Success? ==> readFile(path).Some? && PasswordMap(readFile(path).value).Some?
    ensures r.Failure? ==> r.error.message == AccessMessage(path) || r.error.message == MissingMessage(server, path)
  {
    var lines := readFile(path);
    if lines.None? then Failure(InvalidConfiguration(AccessMessage(path)))
    else match PasswordMap(lines.value)
      case None => Failure(InvalidConfiguration(AccessMessage(path)))
      case Some(m) =>
        if server in m then Success(m[server]) else Failure(InvalidConfiguration(MissingMessage(server, path)))
  }

  /** Credential resolution at the head of `init`. */
  function ResolveCredentials(env: map<string, string>, server: string, username: Option<string>,
                              password: Option<string>, dbType: string,
                              join: (string, string) -> string,
                              readFile: string -> Option<seq<string>>): (r: Result<Credentials, InvalidConfiguration>)
    ensures dbType == "sqlite" ==> r == Success(Credentials(username, password))
    ensures dbType != "sqlite" && r.Success? ==> r.value.username.Some? && r.value.password.Some?
  {
    if dbType == "sqlite" then Success(Credentials(username, password))
    else match ResolveUsername(env, username)
      case Failure(e) => Failure(e)
      case Success(user) =>
        if password.Some? then Success(Credentials(Some(user), password))
        else match FilePassword(server, PasswordPath(env, user, join), readFile)
          case Failure(e) => Failure(e)
          case Success(pwd) => Success(Credentials(Some(user), Some(pwd)))
  }

  /** `'%s' % value` of an optional argument: `None` prints as `None`. */
  function Text(o: Option<string>): string {
    if o.Some? then o.value else "None"
  }

  /** The URL `init` binds: resolved credentials, no port. */
  function InitBinding(env: map<string, string>, server: string, database: string, username: Option<string>,
                       password: Option<string>, dbType: string,
                       join: (string, string) -> string, readFile: string -> Option<seq<string>>,
                       quotePlus: string -> string, abspath: string -> string): Result<string, InvalidConfiguration>
  {
    match ResolveCredentials(env, server, username, password, dbType, join, readFile)
    case Failure(e) => Failure(e)
    case Success(c) => Success(ConnectionString(dbType, Text(c.username), Text(c.password), server, None, database, quotePlus, abspath))
  }

  /** The username is the explicit one, else `$USER`, else `$LOGNAME`; with none of them resolution fails. */
  lemma UsernameOrder(env: map<string, string>, server: string, username: Option<string>,
                      password: Option<string>, dbType: string,
                      join: (string, string) -> string, readFile: string -> Option<seq<string>>)
    requires dbType != "sqlite"
    ensures var r := ResolveCredentials(env, server, username, password, dbType, join, readFile);
      && (username.None? && "USER" !in env && "LOGNAME" !in env <==> r == Failure(InvalidConfiguration(UsernameMessage)))
      && (r.Success? ==> r.value.username == Some(
            if username.Some? then username.value else if "USER" in env then env["USER"] else env["LOGNAME"]))
  {
    if ResolveUsername(env, username).Success? {
      MessagesDistinct(server, PasswordPath(env, ResolveUsername(env, username).value, join));
    }
  }

  /** The three messages are told apart by their eleventh character. */
  lemma MessagesDistinct(server: string, path: string)
    ensures UsernameMessage != AccessMessage(path)
    ensures UsernameMessage != MissingMessage(server, path)
    ensures AccessMessage(path) != MissingMessage(server, path)
  {
    assert UsernameMessage[10] == 'd';
    assert AccessMessage(path)[10] == 'a';
    assert MissingMessage(server, path)[10] == 'f';
  }

  /** An explicit password is used as it is, and the password file is never read. */
  lemma ExplicitPasswordSkipsFile(env: map<string, string>, server: string, username: Option<string>,
                                  password: string, dbType: string,
                                  join: (string, string) -> string,
                                  readFile1: string -> Option<seq<string>>, readFile2: string -> Option<seq<string>>)
    ensures ResolveCredentials(env, server, username, Some(password), dbType, join, readFile1)
         == ResolveCredentials(env, server, username, Some(password), dbType, join, readFile2)
    ensures var r := ResolveCredentials(env, server, username, Some(password), dbType, join, readFile1);
      r.Success? ==> r.value.password == Some(password)
  {
  }

  /**
    Without a password, an unreadable file or a line that does not split into
    two tokens fails with the "Unable to access" message; a server that no
    line names fails with "Unable to find password"; otherwise the password is
    the one on the last line that names the server.
   */
  lemma FilePasswordOutcomes(server: string, path: string, readFile: string -> Option<seq<string>>)
    ensures var r := FilePassword(server, path, readFile);
      var lines := readFile(path);
      && (lines.None? ==> r == Failure(InvalidConfiguration(AccessMessage(path))))
      && (lines.Some? && (exists i | 0 <= i < |lines.value| :: |Split(lines.value[i])| != 2) ==>
            r == Failure(InvalidConfiguration(AccessMessage(path))))
      && (lines.Some? && (forall i | 0 <= i < |lines.value| :: |Split(lines.value[i])| == 2) ==>
            var last := LastLineFor(lines.value, server);
            && (last < 0 <==> r == Failure(InvalidConfiguration(MissingMessage(server, path))))
            && (last >= 0 <==> r.Success?)
            && (r.Success? ==> r.value == Split(lines.value[last])[1]))
  {
    var lines := readFile(path);
    if lines.Some? && PasswordMap(lines.value).Some? {
      PasswordOfLastLine(lines.value, server);
      MessagesDistinct(server, path);
    }
  }

  /** A blank line in the password file makes resolution fail: `split()` of it has no tokens. */
  lemma BlankLineFails(lines: seq<string>, i: nat)
    requires i < |lines| && AllSpace(lines[i])
    ensures PasswordMap(lines).None?
  {
  }

  /**
    Without an explicit password, resolution is the lookup in
    `$ACAREA/<username>.dat` (`/usr/local/sybase/stbin` when `$ACAREA` is
    unset): an unreadable file or a line that does not split into two tokens
    fails with the "Unable to access" message, a server no line names fails
    with "Unable to find password", and otherwise the password is the one on
    the last line that names the server.
   */
  lemma ResolveFromPasswordFile(env: map<string, string>, server: string, username: Option<string>,
                                dbType: string, join: (string, string) -> string,
                                readFile: string -> Option<seq<string>>)
    requires dbType != "sqlite" && ResolveUsername(env, username).Success?
    ensures var user := ResolveUsername(env, username).value;
      var path := PasswordPath(env, user, join);
      var r := ResolveCredentials(env, server, username, None, dbType, join, readFile);
      var lines := readFile(path);
      && path == join(if "ACAREA" in env then env["ACAREA"] else "/usr/local/sybase/stbin", user + ".dat")
      && ((lines.None? || (exists i | 0 <= i < |lines.value| :: |Split(lines.value[i])| != 2)) <==>
            r == Failure(InvalidConfiguration(AccessMessage(path))))
      && (lines.Some? && (forall i | 0 <= i < |lines.value| :: |Split(lines.value[i])| == 2) ==>
            var last := LastLineFor(lines.value, server);
            && (last < 0 <==> r == Failure(InvalidConfiguration(MissingMessage(server, path))))
            && (last >= 0 <==> r.Success?)
            && (r.Success? ==> r.value == Credentials(Some(user), Some(Split(lines.value[last])[1]))))
  {
    var user := ResolveUsername(env, username).value;
    var path := PasswordPath(env, user, join);
    FilePasswordOutcomes(server, path, readFile);
    MessagesDistinct(server, path);
  }

  /** A blank line in `$ACAREA/<username>.dat` makes resolution fail with the "Unable to access" message. */
  lemma BlankLineResolutionFails(env: map<string, string>, server: string, username: Option<string>,
                                 dbType: string, join: (string, string) -> string,
                                 readFile: string -> Option<seq<string>>, i: nat)
    requires dbType != "sqlite" && ResolveUsername(env, username).Success?
    requires var lines := readFile(PasswordPath(env, ResolveUsername(env, username).value, join));
      lines.Some? && i < |lines.value| && AllSpace(lines.value[i])
    ensures var path := PasswordPath(env, ResolveUsername(env, username).value, join);
      ResolveCredentials(env, server, username, None, dbType, join, readFile)
        == Failure(InvalidConfiguration(AccessMessage(path)))
  {
    var path := PasswordPath(env, ResolveUsername(env, username).value, join);
    BlankLineFails(readFile(path).value, i);
  }

  /**
    For every flavor but SQLite, a successful `init` binds the portless URL
    built from the resolved credentials.
   */
  lemma InitBindsPortless(env: map<string, string>, server: string, database: string, username: Option<string>,
                          password: Option<string>, dbType: string,
                          join: (string, string) -> string, readFile: string -> Option<seq<string>>,
                          quotePlus: string -> string, abspath: string -> string)
    requires dbType != "sqlite"
    requires InitBinding(env, server, database, username, password, dbType, join, readFile, quotePlus, abspath).Success?
    ensures var c := ResolveCredentials(env, server, username, password, dbType, join, readFile).value;
      InitBinding(env, server, database, username, password, dbType, join, readFile, quotePlus, abspath).value
        == Authority(dbType, c.username.value, c.password.value, server, quotePlus) + "/" + database
  {
    var c := ResolveCredentials(env, server, username, password, dbType, join, readFile).value;
    UrlWithoutPort(dbType, c.username.value, c.password.value, server, None, database, quotePlus, abspath);
  }

  /** SQLite never fails and binds `sqlite:///` and the absolute database path. */
  lemma InitSqlite(env: map<string, string>, server: string, database: string, username: Option<string>,
                   password: Option<string>, join: (string, string) -> string,
                   readFile: string -> Option<seq<string>>, quotePlus: string -> string, abspath: string -> string)
    ensures InitBinding(env, server, database, username, password, "sqlite", join, readFile, quotePlus, abspath)
         == Success("sqlite:///" + abspath(database))
  {
  }
}
