/** Exactly which fields survive printing and parsing, in either syntax. */
module ConnectionStringLimits {
  import opened ConnectionString
  import opened Decimal
  import opened Strings

  // The URI form

  function Body(i: ConnectionInfo): string {
    i.user + (":" + (i.password + ("@" + HostText(i))))
  }

  function HostText(i: ConnectionInfo): string {
    i.host + (":" + (Natural(i.port) + ("/" + i.database)))
  }

  /** No field of a URI holds a character that ends it. */
  predicate UriFields(i: ConnectionInfo) {
    && ':' !in i.user && '@' !in i.user
    && '@' !in i.password
    && '/' !in i.host && ':' !in i.host
    && (i.database == "" || !IsBlank(i.database[|i.database| - 1]))
  }

  lemma HostKeepsLogin(part: string, info: ConnectionInfo)
    ensures ParseHost(part, info).Parsed? ==>
              ParseHost(part, info).info.user == info.user && ParseHost(part, info).info.password == info.password
  {
  }

  lemma FindEarly(s: string, c: char, k: nat)
    requires k < |s| && s[k] == c
    ensures Find(s, c) <= k
  {
  }

  lemma EarlyBreak(user: string, rest: string)
    requires '@' in rest && (':' in user || '@' in user)
    ensures
      var body := user + rest;
      var at := Find(body, '@');
      at < |body| && (at < |user| || Find(body[..at], ':') < |user|)
  {
    var body := user + rest;
    var k :| 0 <= k < |user| && (user[k] == ':' || user[k] == '@');
    var mark :| 0 <= mark < |rest| && rest[mark] == '@';
    assert body[k] == user[k] && body[|user| + mark] == '@';
    FindEarly(body, '@', |user| + mark);
    var at := Find(body, '@');
    if user[k] == '@' { FindEarly(body, '@', k); }
    if at > k { FindEarly(body[..at], ':', k); }
  }

  lemma BrokenUser(user: string, rest: string)
    requires '@' in rest && (':' in user || '@' in user)
    ensures ParseUri(user + rest).Parsed? ==> |ParseUri(user + rest).info.user| < |user|
  {
    var body := user + rest;
    var at := Find(body, '@');
    EarlyBreak(user, rest);
    HostKeepsLogin(body[at + 1..], ParseCredentials(body[..at], DEFAULT_INFO));
  }

  lemma EarlyAtSign(user: string, password: string, rest: string)
    requires ':' !in user && '@' !in user && '@' in password
    ensures
      var body := user + (":" + (password + rest));
      var at := Find(body, '@');
      |user| < at < |user| + 1 + |password| && Find(body[..at], ':') == |user|
  {
    var body := user + (":" + (password + rest));
    var k :| 0 <= k < |password| && password[k] == '@';
    assert body[|user| + 1 + k] == '@' && body[|user|] == ':';
    FindEarly(body, '@', |user| + 1 + k);
    var at := Find(body, '@');
    assert forall j :: 0 <= j < |user| ==> body[j] == user[j] && user[j] in user;
    assert at > |user|;
    FindEarly(body[..at], ':', |user|);
  }

  lemma BrokenPassword(user: string, password: string, rest: string)
    requires ':' !in user && '@' !in user && '@' in password
    ensures ParseUri(user + (":" + (password + rest))).Parsed? ==>
              |ParseUri(user + (":" + (password + rest))).info.password| < |password|
  {
    var body := user + (":" + (password + rest));
    var at := Find(body, '@');
    EarlyAtSign(user, password, rest);
    HostKeepsLogin(body[at + 1..], ParseCredentials(body[..at], DEFAULT_INFO));
  }

  lemma BrokenHost(host: string, rest: string, info: ConnectionInfo)
    requires '/' in rest && ('/' in host || ':' in host) && '/' !in info.host && ':' !in info.host
    ensures ParseHost(host + rest, info).Parsed? ==> ParseHost(host + rest, info).info.host != host
  {
    var part := host + rest;
    var k :| 0 <= k < |host| && (host[k] == '/' || host[k] == ':');
    assert part[k] == host[k];
    var slash := Find(part, '/');
    if host[k] == '/' { FindEarly(part, '/', k); }
    if slash > k { FindEarly(part[..slash], ':', k); }
  }

  predicate SameLogin(a: ConnectionInfo, b: ConnectionInfo) {
    a.user == b.user && a.password == b.password && a.host == b.host
  }

  lemma BodyIsLost(i: ConnectionInfo)
    requires ':' in i.user || '@' in i.user || '@' in i.password || '/' in i.host || ':' in i.host
    ensures ParseUri(Body(i)).Parsed? ==> !SameLogin(ParseUri(Body(i)).info, i)
  {
    var text := HostText(i);
    if ':' in i.user || '@' in i.user {
      assert (":" + (i.password + ("@" + text)))[1 + |i.password|] == '@';
      BrokenUser(i.user, ":" + (i.password + ("@" + text)));
    } else if '@' in i.password {
      BrokenPassword(i.user, i.password, "@" + text);
    } else {
      HostIsLost(i);
    }
  }

  lemma HostIsLost(i: ConnectionInfo)
    requires ':' !in i.user && '@' !in i.user && '@' !in i.password && ('/' in i.host || ':' in i.host)
    ensures ParseUri(Body(i)).Parsed? ==> !SameLogin(ParseUri(Body(i)).info, i)
  {
    BodyHost(i.user, i.password, HostText(i));
    HostTextIsLost(i, DEFAULT_INFO.(user := i.user, password := i.password));
  }

  lemma HostTextIsLost(i: ConnectionInfo, info: ConnectionInfo)
    requires ('/' in i.host || ':' in i.host) && info.host == DEFAULT_INFO.host
    ensures ParseHost(HostText(i), info).Parsed? ==> ParseHost(HostText(i), info).info.host != i.host
  {
    var port := Natural(i.port);
    var rest := ":" + (port + ("/" + i.database));
    assert rest[1 + |port|] == '/';
    BrokenHost(i.host, rest, info);
  }

  lemma BodyHost(user: string, password: string, text: string)
    requires ':' !in user && '@' !in user && '@' !in password
    ensures ParseUri(user + (":" + (password + ("@" + text)))) ==
              ParseHost(text, DEFAULT_INFO.(user := user, password := password))
  {
    assert user + (":" + (password + ("@" + text))) == user + (":" + password) + ("@" + text);
    SplitAtSign(user + (":" + password), text);
    CredentialsReadBack(user, password, DEFAULT_INFO);
  }

  lemma {:induction false} TrimRightBehind(front: string, back: string)
    requires front != "" && !IsBlank(front[|front| - 1])
    ensures TrimRight(front + back) == front + TrimRight(back)
    ensures TrimRight(back) == "" || !IsBlank(TrimRight(back)[|TrimRight(back)| - 1])
    decreases |back|
  {
    if back == "" {
      assert front + back == front;
    } else if IsBlank(back[|back| - 1]) {
      TrimRightBehind(front, back[..|back| - 1]);
      assert (front + back)[..|front + back| - 1] == front + back[..|back| - 1];
    }
  }

  lemma BodyShape(scheme: string, user: string, password: string, host: string, port: string, database: string)
    ensures
      var front := scheme + (user + (":" + (password + ("@" + (host + (":" + (port + "/")))))));
      && front[|front| - 1] == '/'
      && scheme + (user + (":" + (password + ("@" + (host + (":" + (port + ("/" + database)))))))) == front + database
  {
  }

  /** Only blanks at the end of the database name are trimmed away. */
  lemma TrimmedUri(scheme: string, i: ConnectionInfo)
    requires scheme == MARIADB_SCHEME || scheme == MYSQL_SCHEME
    ensures Trim(PrintUri(scheme, i)) == scheme + Body(i.(database := TrimRight(i.database)))
  {
    var port := Natural(i.port);
    var front := scheme + (i.user + (":" + (i.password + ("@" + (i.host + (":" + (port + "/")))))));
    BodyShape(scheme, i.user, i.password, i.host, port, i.database);
    BodyShape(scheme, i.user, i.password, i.host, port, TrimRight(i.database));
    TrimRightBehind(front, i.database);
    assert front[0] == 'm';
  }

  lemma PrintedMeans(scheme: string, i: ConnectionInfo)
    requires scheme == MARIADB_SCHEME || scheme == MYSQL_SCHEME
    ensures Meaning(PrintUri(scheme, i)) == ParseUri(Body(i.(database := TrimRight(i.database))))
  {
    TrimmedUri(scheme, i);
    SchemeBody(scheme, Body(i.(database := TrimRight(i.database))));
  }

  lemma TrimmedMeansTheSame(scheme: string, i: ConnectionInfo)
    requires scheme == MARIADB_SCHEME || scheme == MYSQL_SCHEME
    ensures Meaning(PrintUri(scheme, i)) == Meaning(PrintUri(scheme, i.(database := TrimRight(i.database))))
  {
    TrimRightBehind("/", i.database);
    PrintedMeans(scheme, i);
    PrintedMeans(scheme, i.(database := TrimRight(i.database)));
    assert TrimRight(TrimRight(i.database)) == TrimRight(i.database);
  }

  lemma LoginIsLost(scheme: string, i: ConnectionInfo)
    requires scheme == MARIADB_SCHEME || scheme == MYSQL_SCHEME
    requires ':' in i.user || '@' in i.user || '@' in i.password || '/' in i.host || ':' in i.host
    ensures Meaning(PrintUri(scheme, i)).Parsed? ==> !SameLogin(Meaning(PrintUri(scheme, i)).info, i)
  {
    PrintedMeans(scheme, i);
    BodyIsLost(i.(database := TrimRight(i.database)));
  }

  /** A URI gives its fields back exactly if no field holds a character that ends it. */
  lemma UriReadsBackIff(scheme: string, i: ConnectionInfo)
    requires scheme == MARIADB_SCHEME || scheme == MYSQL_SCHEME
    requires i.port < UINT_SIZE
    ensures Meaning(PrintUri(scheme, i)) == Parsed(i.(socketPath := "")) <==> UriFields(i)
  {
    if ':' in i.user || '@' in i.user || '@' in i.password || '/' in i.host || ':' in i.host {
      LoginIsLost(scheme, i);
    } else if UriFields(i) {
      UriReadsBack(scheme, i);
    } else {
      TrimRightBehind("/", i.database);
      TrimmedMeansTheSame(scheme, i);
      UriReadsBack(scheme, i.(database := TrimRight(i.database)));
    }
  }

  // The key=value form

  predicate PairFields(i: ConnectionInfo) {
    PairValue(i.host) && PairValue(i.user) && PairValue(i.password) && PairValue(i.database) && PairValue(i.socketPath)
  }

  lemma {:induction false} TrimLeftFacts(s: string)
    ensures forall c :: c in TrimLeft(s) ==> c in s
    ensures TrimLeft(s) == "" || !IsBlank(TrimLeft(s)[0])
  {
    if s != "" && IsBlank(s[0]) { TrimLeftFacts(s[1..]); }
  }

  lemma {:induction false} TrimRightFacts(s: string)
    ensures forall c :: c in TrimRight(s) ==> c in s
    ensures TrimRight(s) == "" || (TrimRight(s)[0] == s[0] && !IsBlank(TrimRight(s)[|TrimRight(s)| - 1]))
    ensures s != "" && !IsBlank(s[0]) ==> TrimRight(s) != ""
    decreases |s|
  {
    if s != "" && IsBlank(s[|s| - 1]) { TrimRightFacts(s[..|s| - 1]); }
  }

  lemma TrimFacts(s: string)
    ensures Tight(Trim(s)) && forall c :: c in Trim(s) ==> c in s
    ensures s != "" && !IsBlank(s[0]) ==> Trim(s) != "" && Trim(s)[0] == s[0]
  {
    TrimLeftFacts(s);
    TrimRightFacts(TrimLeft(s));
  }

  /** A key sets at most its own field. */
  lemma KeySetsOneField(key: string, value: string, info: ConnectionInfo)
    requires SetKey(key, value, info).Parsed?
    ensures var after := SetKey(key, value, info).info;
            && (after.host == info.host || after.host == value) && (after.user == info.user || after.user == value)
            && (after.password == info.password || after.password == value)
            && (after.database == info.database || after.database == value)
            && (after.socketPath == info.socketPath || after.socketPath == value)
  {
  }

  lemma TokenKeepsFields(token: string, info: ConnectionInfo)
    requires PairFields(info) && ';' !in token
    ensures SetToken(token, info).Parsed? ==> PairFields(SetToken(token, info).info)
  {
    var equal := Find(token, '=');
    if equal < |token| && SetToken(token, info).Parsed? {
      TrimFacts(token[equal + 1..]);
      KeySetsOneField(ToLower(Trim(token[..equal])), Trim(token[equal + 1..]), info);
    }
  }

  /** Whatever is parsed as pairs, no value comes out with a separator or outer blanks. */
  lemma {:induction false} PairsKeepFields(rest: string, info: ConnectionInfo)
    requires PairFields(info)
    ensures ParsePairs(rest, info).Parsed? ==> PairFields(ParsePairs(rest, info).info)
    decreases |rest|
  {
    if rest != "" {
      var semi := Find(rest, ';');
      var token := rest[..semi];
      TokenKeepsFields(token, info);
      if SetToken(token, info).Parsed? {
        PairsKeepFields(if semi < |rest| then rest[semi + 1..] else "", SetToken(token, info).info);
      }
    }
  }

  /** Key=value pairs give their fields back exactly if no value holds a separator or outer blanks. */
  lemma PairsReadBackIff(i: ConnectionInfo)
    requires i.port < UINT_SIZE
    ensures Meaning(Join(Fields(i))) == Parsed(i.(host := if i.host == "" then DEFAULT_INFO.host else i.host))
            <==> PairFields(i)
  {
    if PairFields(i) {
      PairsReadBack(i);
    } else {
      var text := Join(Fields(i));
      assert text[0] == PrintPair("host", i.host)[0] == 'h';
      TrimFacts(text);
      PairsKeepFields(Trim(text), DEFAULT_INFO);
    }
  }
}
