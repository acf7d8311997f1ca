/** The peridot configuration object and the database connection string it
    builds. */
module Configuration {
  import opened Strings

  /** The SSL mode word the connection string ends with. */
  function SslMode(ssl: bool): string {
    if ssl then "verify-full" else "disable"
  }

  /** The connection string SetDBConnectString builds: the user, the
      password when one is given, the database name and the SSL mode. */
  function ConnectString(user: string, password: string, dbname: string, ssl: bool): string {
    var s := "user=" + user;
    var s := if password != "" then s + " password=" + password else s;
    var s := s + " dbname=" + dbname;
    if ssl then s + " sslmode=verify-full" else s + " sslmode=disable"
  }

  /** Each appended segment is a space and a key=value field. */
  lemma PasswordSegment(s: string, password: string)
    ensures s + " password=" + password == s + " " + ("password=" + password)
  {
    assert " password=" == " " + "password=";
  }

  lemma DbnameSegment(s: string, dbname: string)
    ensures s + " dbname=" + dbname == s + " " + ("dbname=" + dbname)
  {
    assert " dbname=" == " " + "dbname=";
  }

  lemma SslSegment(s: string, ssl: bool)
    ensures (if ssl then s + " sslmode=verify-full" else s + " sslmode=disable")
            == s + " " + ("sslmode=" + SslMode(ssl))
  {
    if ssl {
      assert " sslmode=verify-full" == " " + ("sslmode=" + "verify-full");
    } else {
      assert " sslmode=disable" == " " + ("sslmode=" + "disable");
    }
  }

  /** The connection string read the way libpq reads one: split at spaces
      into key=value fields. When no argument holds a space, the fields are
      exactly user, then password if one was given, then dbname and
      sslmode. */
  lemma ConnectStringFields(user: string, password: string, dbname: string, ssl: bool)
    requires ' ' !in user && ' ' !in password && ' ' !in dbname
    ensures SplitOn(ConnectString(user, password, dbname, ssl), ' ')
            == ["user=" + user]
               + (if password != "" then ["password=" + password] else [])
               + ["dbname=" + dbname, "sslmode=" + SslMode(ssl)]
  {
    var u, d, m := "user=" + user, "dbname=" + dbname, "sslmode=" + SslMode(ssl);
    assert ' ' !in u && ' ' !in d && ' ' !in m;
    SplitOnNoSep(u, ' ');
    var s1 := if password != "" then u + " password=" + password else u;
    var fields1 := if password != "" then [u, "password=" + password] else [u];
    if password != "" {
      PasswordSegment(u, password);
      assert u + " " + ("password=" + password) == u + [' '] + ("password=" + password);
      SplitBefore(u, ' ', "password=" + password);
    }
    assert SplitOn(s1, ' ') == fields1;
    var s2 := s1 + " dbname=" + dbname;
    DbnameSegment(s1, dbname);
    assert s1 + " " + d == s1 + [' '] + d;
    SplitBefore(s1, ' ', d);
    assert SplitOn(s2, ' ') == fields1 + [d];
    SslSegment(s2, ssl);
    assert s2 + " " + m == s2 + [' '] + m;
    SplitBefore(s2, ' ', m);
    assert ConnectString(user, password, dbname, ssl) == s2 + " " + m;
  }

  predicate EndsWith(s: string, suffix: string) {
    |suffix| <= |s| && s[|s| - |suffix|..] == suffix
  }

  lemma EndsWithAppended(x: string, suffix: string)
    ensures EndsWith(x + suffix, suffix)
  {
    assert (x + suffix)[|x|..] == suffix;
  }

  lemma EndsWithLast(s: string, suffix: string)
    requires EndsWith(s, suffix) && suffix != []
    ensures s[|s| - 1] == suffix[|suffix| - 1]
  {
    assert s[|s| - |suffix|..][|suffix| - 1] == s[|s| - 1];
  }

  /** The string ends in " sslmode=verify-full" exactly when SSL is asked
      for, and in " sslmode=disable" exactly when it is not. */
  lemma ConnectStringSslSuffix(user: string, password: string, dbname: string, ssl: bool)
    ensures var r := ConnectString(user, password, dbname, ssl);
            && (ssl <==> EndsWith(r, " sslmode=verify-full"))
            && (!ssl <==> EndsWith(r, " sslmode=disable"))
  {
    var r := ConnectString(user, password, dbname, ssl);
    var s1 := if password != "" then "user=" + user + " password=" + password else "user=" + user;
    var s2 := s1 + " dbname=" + dbname;
    var full, disable := " sslmode=verify-full", " sslmode=disable";
    if ssl {
      assert r == s2 + full;
      EndsWithAppended(s2, full);
      EndsWithLast(r, full);
      if EndsWith(r, disable) {
        EndsWithLast(r, disable);
      }
    } else {
      assert r == s2 + disable;
      EndsWithAppended(s2, disable);
      EndsWithLast(r, disable);
      if EndsWith(r, full) {
        EndsWithLast(r, full);
      }
    }
  }

  /** Right after the user comes " password=" and the password when one is
      given, and " dbname=" otherwise. */
  lemma ConnectStringPassword(user: string, password: string, dbname: string, ssl: bool)
    ensures var r := ConnectString(user, password, dbname, ssl);
            var k := 5 + |user|;
            && k <= |r| && r[..k] == "user=" + user
            && (password != "" ==> k + 10 + |password| <= |r| && r[k..k + 10 + |password|] == " password=" + password)
            && (password == "" ==> k + 8 <= |r| && r[k..k + 8] == " dbname=")
  {
    var r := ConnectString(user, password, dbname, ssl);
    var u := "user=" + user;
    var k := |u|;
    var pw := " password=" + password;
    var s1 := if password != "" then u + " password=" + password else u;
    var s2 := s1 + " dbname=" + dbname;
    var tail := if ssl then " sslmode=verify-full" else " sslmode=disable";
    assert r == s2 + tail;
    assert r[..|s2|] == s2;
    assert s2 == s1 + (" dbname=" + dbname);
    assert s2[..|s1|] == s1;
    if password != "" {
      assert s1 == u + pw;
      assert s1[..k] == u && s1[k..] == pw;
      assert r[k..k + |pw|] == s1[k..];
    } else {
      assert s2[k..k + 8] == " dbname=";
    }
  }

  /** Config: the connection string and the three locations. */
  class Config {
    var dbConnectString: string
    var reposLocation: string
    var hashesLocation: string
    var spdxLLJSONLocation: string

    constructor (reposLocation: string, hashesLocation: string, spdxLLJSONLocation: string)
      ensures this.dbConnectString == "" && this.reposLocation == reposLocation
      ensures this.hashesLocation == hashesLocation && this.spdxLLJSONLocation == spdxLLJSONLocation
    {
      this.dbConnectString := "";
      this.reposLocation := reposLocation;
      this.hashesLocation := hashesLocation;
      this.spdxLLJSONLocation := spdxLLJSONLocation;
    }

    /** SetDBConnectString: the old string is discarded and the new one is
        built piece by piece; no other field changes. */
    method SetDBConnectString(user: string, password: string, dbname: string, ssl: bool)
      modifies this
      ensures dbConnectString == ConnectString(user, password, dbname, ssl)
      ensures reposLocation == old(reposLocation) && hashesLocation == old(hashesLocation)
      ensures spdxLLJSONLocation == old(spdxLLJSONLocation)
    {
      dbConnectString := "";
      dbConnectString := dbConnectString + "user=" + user;
      assert dbConnectString == "user=" + user by {
        assert "" + "user=" == "user=";
      }
      if password != "" {
        dbConnectString := dbConnectString + " password=" + password;
      }
      dbConnectString := dbConnectString + " dbname=" + dbname;
      if ssl {
        dbConnectString := dbConnectString + " sslmode=verify-full";
      } else {
        dbConnectString := dbConnectString + " sslmode=disable";
      }
    }
  }
}
