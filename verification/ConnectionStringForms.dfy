/** The forms a connection string may take: parts of a URI may be missing, keys have several spellings. */
module ConnectionStringForms {
  import opened ConnectionString
  import opened Decimal
  import opened Strings
  import opened Wrappers

  datatype Credentials = Credentials(user: string, password: Option<string>)

  /** `[user[:password]@]host[:port][/database]` */
  datatype Parts =
    Parts(credentials: Option<Credentials>, host: string, port: Option<string>, database: Option<string>)

  function Behind(mark: string, part: Option<string>): string {
    if part.Some? then mark + part.value else ""
  }

  function PrintCredentials(c: Credentials): string {
    c.user + Behind(":", c.password)
  }

  function PrintHost(p: Parts): string {
    p.host + Behind(":", p.port) + Behind("/", p.database)
  }

  function Print(p: Parts): string {
    (if p.credentials.Some? then PrintCredentials(p.credentials.value) + "@" else "") + PrintHost(p)
  }

  predicate Lacks(part: Option<string>, c: char) {
    part.Some? ==> c !in part.value
  }

  /** No part holds a character that ends it. */
  predicate Separable(p: Parts) {
    && '/' !in p.host && ':' !in p.host && Lacks(p.port, '/')
    && (match p.credentials
        case None => '@' !in PrintHost(p)
        case Some(c) => ':' !in c.user && '@' !in c.user && Lacks(c.password, '@'))
  }

  /** What each field is: what the part says, or the default if the part is missing.  An empty host counts as
      missing, but not if a port follows. */
  function Named(p: Parts): ConnectionInfo {
    var user := if p.credentials.Some? then p.credentials.value.user else "";
    var password :=
      if p.credentials.Some? && p.credentials.value.password.Some? then p.credentials.value.password.value else "";
    var host := if p.host == "" && p.port.None? then "127.0.0.1" else p.host;
    ConnectionInfo(host, 3306, user, password, if p.database.Some? then p.database.value else "", "")
  }

  /** The port is the number its text says, 3306 if there is no text. */
  function Expected(p: Parts): Outcome {
    if p.port.None? || p.port.value == "" then Parsed(Named(p))
    else match ParsePort(p.port.value)
         case NoNumber => Threw
         case Value(port) => Parsed(Named(p).(port := port))
  }

  lemma CredentialsForm(c: Credentials, info: ConnectionInfo)
    requires ':' !in c.user && info.user == "" && info.password == ""
    ensures ParseCredentials(PrintCredentials(c), info) ==
              info.(user := c.user, password := if c.password.Some? then c.password.value else "")
  {
    if c.password.Some? {
      FindSeparator(c.user, ':', c.password.value);
      assert PrintCredentials(c) == c.user + (":" + c.password.value);
    } else {
      FindNone(c.user, ':');
      assert PrintCredentials(c) == c.user;
    }
  }

  lemma HostForm(p: Parts, info: ConnectionInfo)
    requires '/' !in p.host && ':' !in p.host && Lacks(p.port, '/')
    requires info == DEFAULT_INFO.(user := info.user, password := info.password)
    requires info.user == Named(p).user && info.password == Named(p).password
    ensures ParseHost(PrintHost(p), info) == Expected(p)
  {
    var front := p.host + Behind(":", p.port);
    if p.database.Some? {
      FindSeparator(front, '/', p.database.value);
      assert PrintHost(p) == front + ("/" + p.database.value);
    } else {
      FindNone(front, '/');
      assert PrintHost(p) == front && front[..|front|] == front;
    }
    if p.port.Some? {
      FindSeparator(p.host, ':', p.port.value);
      assert front == p.host + (":" + p.port.value);
    } else {
      FindNone(p.host, ':');
      assert front == p.host;
    }
  }

  /** Any URI without separators in its parts means what its parts say. */
  lemma PartsReadBack(p: Parts)
    requires Separable(p)
    ensures ParseUri(Print(p)) == Expected(p)
  {
    match p.credentials
    case None =>
      FindNone(PrintHost(p), '@');
      assert Print(p) == PrintHost(p);
      HostForm(p, DEFAULT_INFO);
    case Some(c) =>
      FindSeparator(PrintCredentials(c), '@', PrintHost(p));
      assert Print(p) == PrintCredentials(c) + ("@" + PrintHost(p));
      CredentialsForm(c, DEFAULT_INFO);
      HostForm(p, DEFAULT_INFO.(user := Named(p).user, password := Named(p).password));
  }

  lemma UriMeans(scheme: string, p: Parts)
    requires scheme == MARIADB_SCHEME || scheme == MYSQL_SCHEME
    requires Separable(p) && Print(p) != "" && !IsBlank(Print(p)[|Print(p)| - 1])
    ensures Meaning(scheme + Print(p)) == Expected(p)
  {
    SchemeMeaning(scheme, Print(p));
    PartsReadBack(p);
  }

  lemma {:induction false} SpacesSkipped(spaces: string, rest: string)
    requires (forall c :: c in spaces ==> IsSpace(c)) && (rest != "" ==> !IsSpace(rest[0]))
    ensures SkipSpaces(spaces + rest) == rest
  {
    if spaces == "" {
      assert spaces + rest == rest;
    } else {
      assert spaces[0] in spaces && forall c :: c in spaces[1..] ==> c in spaces;
      assert (spaces + rest)[1..] == spaces[1..] + rest;
      SpacesSkipped(spaces[1..], rest);
    }
  }

  lemma {:induction false} DigitsTaken(digits: string, rest: string)
    requires (forall c :: c in digits ==> IsDigit(c)) && (rest != "" ==> !IsDigit(rest[0]))
    ensures Digits(digits + rest) == digits
  {
    if digits == "" {
      assert digits + rest == rest;
    } else {
      assert digits[0] in digits && forall c :: c in digits[1..] ==> c in digits;
      assert (digits + rest)[1..] == digits[1..] + rest;
      DigitsTaken(digits[1..], rest);
    }
  }

  /** A port may have spaces and a sign in front and anything behind.  It is cut to 32 bits, after a minus
      taken from 2^64, and throws from 2^64 on. */
  lemma PortForms(spaces: string, sign: string, digits: string, rest: string)
    requires forall c :: c in spaces ==> IsSpace(c)
    requires sign == "" || sign == "+" || sign == "-"
    requires digits != "" && (forall c :: c in digits ==> IsDigit(c)) && (rest != "" ==> !IsDigit(rest[0]))
    ensures var n := DigitsValue(digits, 0);
            ParsePort(spaces + (sign + (digits + rest))) ==
              if n >= ULONG_SIZE then NoNumber
              else Value((if sign == "-" then ULONG_SIZE - n else n) % UINT_SIZE)
  {
    var t := sign + (digits + rest);
    assert digits[0] in digits;
    assert t[0] == if sign == "" then digits[0] else sign[0];
    SpacesSkipped(spaces, t);
    DigitsTaken(digits, rest);
    if sign == "" {
      assert t == digits + rest;
    } else {
      assert t[1..] == digits + rest;
    }
  }

  /** A port without a number throws. */
  lemma PortWithoutNumber(text: string)
    requires text != "" && forall c :: c in text ==> !IsDigit(c)
    ensures ParsePort(text) == NoNumber
  {
    SkippedIsSuffix(text);
    var t := SkipSpaces(text);
    if t != "" {
      assert t[0] in t;
      if |t| > 1 { assert t[1] in t; }
    }
  }

  lemma {:induction false} SkippedIsSuffix(s: string)
    ensures forall c :: c in SkipSpaces(s) ==> c in s
  {
    if s != "" && IsSpace(s[0]) { SkippedIsSuffix(s[1..]); }
  }

  // Keys

  /** The spellings of each key; any other key is passed over. */
  lemma KeySpellings(key: string, value: string, info: ConnectionInfo)
    ensures key in ["user", "username"] ==> SetKey(key, value, info) == Parsed(info.(user := value))
    ensures key in ["password", "passwd", "pwd"] ==> SetKey(key, value, info) == Parsed(info.(password := value))
    ensures key in ["database", "schema"] ==> SetKey(key, value, info) == Parsed(info.(database := value))
    ensures key in ["socket", "socket_path"] ==> SetKey(key, value, info) == Parsed(info.(socketPath := value))
    ensures key == "host" ==> SetKey(key, value, info) == Parsed(if value == "" then info else info.(host := value))
    ensures key == "port" && value == "" ==> SetKey(key, value, info) == Parsed(info)
    ensures key == "port" && value != "" ==>
              SetKey(key, value, info) ==
                if ParsePort(value).NoNumber? then Threw else Parsed(info.(port := ParsePort(value).value))
    ensures key !in ["user", "username", "password", "passwd", "pwd", "database", "schema", "socket", "socket_path",
                     "host", "port"] ==>
              SetKey(key, value, info) == Parsed(info)
  {
  }

  /** Keys count in any case and between blanks, values between blanks; a token without `=` is passed over. */
  lemma AnyCase(key: string, name: string, value: string, info: ConnectionInfo)
    requires '=' !in key && |Trim(key)| == |name|
    requires forall i :: 0 <= i < |name| ==> Trim(key)[i] == name[i] || IsUpper(Trim(key)[i], name[i])
    requires forall c :: c in name ==> !('A' <= c <= 'Z')
    ensures SetToken(key + ("=" + value), info) == SetKey(name, Trim(value), info)
    ensures SetToken(key, info) == Parsed(info)
  {
    FindSeparator(key, '=', value);
    FindNone(key, '=');
    forall i | 0 <= i < |name| ensures ToLower(Trim(key))[i] == name[i] {
      assert name[i] in name;
    }
    assert ToLower(Trim(key)) == name;
  }

  predicate IsUpper(c: char, lower: char) {
    'A' <= c <= 'Z' && lower as int == c as int + 32
  }
}
