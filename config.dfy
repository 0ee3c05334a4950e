/** The database connection string (backend/pkg/config/config.go). */
module Config {
  import opened Wrappers
  import opened Text

  /** The database fields of `Config`; the exchange keys it also carries
      play no part in the connection string. */
  datatype DbConfig = DbConfig(host: string, port: string, user: string, password: string, name: string, sslMode: string)

  const Scheme := "postgres://"
  const SslParameter := "?sslmode="

  /** `GetDSN`: the fields joined verbatim, with no escaping. */
  function GetDsn(c: DbConfig): (r: string)
    ensures IsPrefix(Scheme, r)
    ensures |r| == |c.user| + |c.password| + |c.host| + |c.port| + |c.name| + |c.sslMode| + 24
    ensures r[|r| - |c.sslMode| - |SslParameter|..] == SslParameter + c.sslMode
  {
    var r := Scheme + c.user + ":" + c.password + "@" + c.host + ":" + c.port + "/" + c.name + SslParameter + c.sslMode;
    assert r[..|Scheme|] == Scheme;
    assert r[|r| - |c.sslMode| - |SslParameter|..] == SslParameter + c.sslMode;
    r
  }

  /** `s` up to the first `c`, and what follows it. */
  function SplitAt(s: string, c: char): (r: Option<(string, string)>)
    ensures r.None? <==> c !in s
    ensures r.Some? ==> s == r.value.0 + [c] + r.value.1 && c !in r.value.0
  {
    if s == [] then None
    else if s[0] == c then Some(([], s[1..]))
    else match SplitAt(s[1..], c)
      case None => None
      case Some((a, b)) => Some(([s[0]] + a, b))
  }

  lemma {:induction false} SplitAtJoin(a: string, c: char, b: string)
    requires c !in a
    ensures SplitAt(a + [c] + b, c) == Some((a, b))
  {
    if a != [] {
      assert (a + [c] + b)[1..] == a[1..] + [c] + b;
      SplitAtJoin(a[1..], c, b);
      assert [a[0]] + a[1..] == a;
    }
  }

  /** Reads the fields back out of a connection string, each field ending
      at the first occurrence of the delimiter after it. */
  function ParseDsn(s: string): Option<DbConfig> {
    if !IsPrefix(Scheme, s) then None
    else
      match SplitAt(s[|Scheme|..], ':')
      case None => None
      case Some((user, s1)) =>
        match SplitAt(s1, '@')
        case None => None
        case Some((password, s2)) =>
          match SplitAt(s2, ':')
          case None => None
          case Some((host, s3)) =>
            match SplitAt(s3, '/')
            case None => None
            case Some((port, s4)) =>
              match SplitAt(s4, '?')
              case None => None
              case Some((name, s5)) =>
                if IsPrefix("sslmode=", s5) then Some(DbConfig(host, port, user, password, name, s5[8..]))
                else None
  }

  /** Fields free of their own delimiter come back unchanged. */
  predicate Delimited(c: DbConfig) {
    ':' !in c.user && '@' !in c.password && ':' !in c.host && '/' !in c.port && '?' !in c.name
  }

  lemma ParseGetDsn(c: DbConfig)
    requires Delimited(c)
    ensures ParseDsn(GetDsn(c)) == Some(c)
  {
    var s5 := "sslmode=" + c.sslMode;
    var s4 := c.name + "?" + s5;
    var s3 := c.port + "/" + s4;
    var s2 := c.host + ":" + s3;
    var s1 := c.password + "@" + s2;
    var s0 := c.user + ":" + s1;
    assert GetDsn(c) == Scheme + s0;
    assert GetDsn(c)[|Scheme|..] == s0;
    SplitAtJoin(c.user, ':', s1);
    SplitAtJoin(c.password, '@', s2);
    SplitAtJoin(c.host, ':', s3);
    SplitAtJoin(c.port, '/', s4);
    SplitAtJoin(c.name, '?', s5);
    assert s5[..8] == "sslmode=" && s5[8..] == c.sslMode;
  }

  /** Without escaping, a delimiter inside a field makes two different
      configurations produce the same connection string. */
  lemma UnescapedFieldsCollide()
    ensures GetDsn(DbConfig("h", "1", "a:b", "c", "d", "e")) == GetDsn(DbConfig("h", "1", "a", "b:c", "d", "e"))
  {
  }
}
