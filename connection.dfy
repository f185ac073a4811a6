/**
  `_db_connection_str`: the SQLAlchemy URL for a database. `urllib.quote_plus`
  and `os.path.abspath` are parameters, left uninterpreted.
 */
module Connection {
  import opened Wrappers
  import opened PyValues

  /** `port and port != -1`: `None`, `0` and `-1` all mean "no port". */
  predicate HasPort(port: Option<int>) {
    port.Some? && port.value != 0 && port.value != -1
  }

  /** `flavor.startswith('mssql')`. */
  predicate IsMssql(flavor: string) {
    IsPrefix("mssql", flavor)
  }

  /** `'%(flavour)s://%(user)s:%(passwd)s@%(host)s'` with the password quoted. */
  function Authority(flavor: string, username: string, password: string, server: string,
                     quotePlus: string -> string): string
  {
    flavor + "://" + username + ":" + quotePlus(password) + "@" + server
  }

  /** The port segment: `:N` for most flavors, `?port=N` for MS SQL, empty without a port. */
  function PortInfo(flavor: string, port: Option<int>): (info: string)
    ensures info == [] <==> !HasPort(port)
  {
    if HasPort(port) && !IsMssql(flavor) then ":" + IntToString(port.value)
    else if HasPort(port) then "?port=" + IntToString(port.value)
    else ""
  }

  /**
    The URL: `sqlite:///` and the absolute path for SQLite; otherwise the
    authority followed by the database segment and the port segment, the
    database first for MS SQL and last for every other flavor.
   */
  function ConnectionString(flavor: string, username: string, password: string, server: string,
                            port: Option<int>, database: string,
                            quotePlus: string -> string, abspath: string -> string): (url: string)
    ensures flavor == "sqlite" ==> url == "sqlite:///" + abspath(database)
  {
    if flavor == "sqlite" then "sqlite:///" + abspath(database)
    else
      var portInfo := PortInfo(flavor, port);
      var dbInfo := "/" + database;
      var head := Authority(flavor, username, password, server, quotePlus);
      if IsMssql(flavor) then head + dbInfo + portInfo else head + portInfo + dbInfo
  }

  /** Every flavor other than SQLite starts with the authority, and the password in it is quoted. */
  lemma UrlStartsWithAuthority(flavor: string, username: string, password: string, server: string,
                               port: Option<int>, database: string,
                               quotePlus: string -> string, abspath: string -> string)
    requires flavor != "sqlite"
    ensures IsPrefix(Authority(flavor, username, password, server, quotePlus),
                     ConnectionString(flavor, username, password, server, port, database, quotePlus, abspath))
  {
    var head := Authority(flavor, username, password, server, quotePlus);
    var portInfo := PortInfo(flavor, port);
    var dbInfo := "/" + database;
    if IsMssql(flavor) {
      assert head + dbInfo + portInfo == head + (dbInfo + portInfo);
      PrefixOfConcat(head, dbInfo + portInfo);
    } else {
      assert head + portInfo + dbInfo == head + (portInfo + dbInfo);
      PrefixOfConcat(head, portInfo + dbInfo);
    }
  }

  lemma PrefixOfConcat(a: string, b: string)
    ensures IsPrefix(a, a + b)
  {
    assert (a + b)[..|a|] == a;
  }

  /** Without a port the URL ends with the database segment, whatever the flavor. */
  lemma UrlWithoutPort(flavor: string, username: string, password: string, server: string,
                       port: Option<int>, database: string,
                       quotePlus: string -> string, abspath: string -> string)
    requires flavor != "sqlite" && !HasPort(port)
    ensures ConnectionString(flavor, username, password, server, port, database, quotePlus, abspath)
         == Authority(flavor, username, password, server, quotePlus) + "/" + database
  {
    assert PortInfo(flavor, port) == "";
  }

  /** With a port, MS SQL puts `?port=N` after the database segment. */
  lemma MssqlUrlWithPort(flavor: string, username: string, password: string, server: string,
                         port: Option<int>, database: string,
                         quotePlus: string -> string, abspath: string -> string)
    requires flavor != "sqlite" && HasPort(port) && IsMssql(flavor)
    ensures ConnectionString(flavor, username, password, server, port, database, quotePlus, abspath)
         == Authority(flavor, username, password, server, quotePlus) + "/" + database + "?port=" + IntToString(port.value)
  {
    var head := Authority(flavor, username, password, server, quotePlus);
    assert head + "/" + database + ("?port=" + IntToString(port.value))
        == head + "/" + database + "?port=" + IntToString(port.value);
  }

  /** With a port, every other flavor puts `:N` before the database segment. */
  lemma UrlWithPort(flavor: string, username: string, password: string, server: string,
                    port: Option<int>, database: string,
                    quotePlus: string -> string, abspath: string -> string)
    requires flavor != "sqlite" && HasPort(port) && !IsMssql(flavor)
    ensures ConnectionString(flavor, username, password, server, port, database, quotePlus, abspath)
         == Authority(flavor, username, password, server, quotePlus) + ":" + IntToString(port.value) + "/" + database
  {
    var head := Authority(flavor, username, password, server, quotePlus);
    assert head + (":" + IntToString(port.value)) + ("/" + database)
        == head + ":" + IntToString(port.value) + "/" + database;
  }

  /** For SQLite the URL depends on the database path alone. */
  lemma SqliteIgnoresCredentials(username1: string, password1: string, server1: string, port1: Option<int>,
                                 username2: string, password2: string, server2: string, port2: Option<int>,
                                 database: string, quotePlus: string -> string, abspath: string -> string)
    ensures ConnectionString("sqlite", username1, password1, server1, port1, database, quotePlus, abspath)
         == ConnectionString("sqlite", username2, password2, server2, port2, database, quotePlus, abspath)
  {
  }

  /**
    The port can be read back from the URL: its segment holds the decimal
    digits of the port, with no leading zero (after a minus sign for a negative one).
   */
  lemma PortReadBack(flavor: string, port: Option<int>)
    requires HasPort(port)
    ensures var info := PortInfo(flavor, port);
      var digits := if IsMssql(flavor) then info[6..] else info[1..];
      && (IsMssql(flavor) ==> info[..6] == "?port=")
      && (!IsMssql(flavor) ==> info[..1] == ":")
      && (port.value > 0 ==> AllDigits(digits) && DecimalValue(digits) == port.value)
      && (port.value < 0 ==> digits[0] == '-' && AllDigits(digits[1..]) && DecimalValue(digits[1..]) == -port.value)
      && (port.value > 0 ==> digits[0] != '0')
      && (port.value < 0 ==> |digits| >= 2 && digits[1] != '0')
  {
    var s := IntToString(port.value);
    if IsMssql(flavor) {
      assert ("?port=" + s)[6..] == s;
    } else {
      assert (":" + s)[1..] == s;
    }
  }

  /** Two different ports give two different URLs, whatever the other arguments. */
  lemma {:induction false} DistinctPortsDistinctUrls(flavor: string, username: string, password: string, server: string,
                                      port1: Option<int>, port2: Option<int>, database: string,
                                      quotePlus: string -> string, abspath: string -> string)
    requires flavor != "sqlite" && HasPort(port1) && HasPort(port2) && port1 != port2
    ensures ConnectionString(flavor, username, password, server, port1, database, quotePlus, abspath)
         != ConnectionString(flavor, username, password, server, port2, database, quotePlus, abspath)
  {
    var head := Authority(flavor, username, password, server, quotePlus);
    var s1 := IntToString(port1.value);
    var s2 := IntToString(port2.value);
    IntToStringInjective(port1.value, port2.value);
    if IsMssql(flavor) {
      MssqlUrlWithPort(flavor, username, password, server, port1, database, quotePlus, abspath);
      MssqlUrlWithPort(flavor, username, password, server, port2, database, quotePlus, abspath);
      SuffixDistinct(head + "/" + database + "?port=", s1, s2);
    } else {
      UrlWithPort(flavor, username, password, server, port1, database, quotePlus, abspath);
      UrlWithPort(flavor, username, password, server, port2, database, quotePlus, abspath);
      InfixDistinct(head + ":", s1, s2, "/", database);
    }
  }

  /** Strings that differ only in a middle part are different. */
  lemma InfixDistinct(x: string, s1: string, s2: string, y: string, z: string)
    requires s1 != s2
    ensures x + s1 + y + z != x + s2 + y + z
  {
    if |s1| == |s2| {
      var i :| 0 <= i < |s1| && s1[i] != s2[i];
      assert (x + s1 + y + z)[|x| + i] == s1[i];
      assert (x + s2 + y + z)[|x| + i] == s2[i];
    }
  }

  lemma SuffixDistinct(x: string, s1: string, s2: string)
    requires s1 != s2
    ensures x + s1 != x + s2
  {
    assert (x + s1)[|x|..] == s1;
    assert (x + s2)[|x|..] == s2;
  }
}
