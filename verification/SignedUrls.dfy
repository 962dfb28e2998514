/** Signed, short-lived links to download an allowlist. */
module SignedUrls {
  import opened Base
  import opened Hex
  import opened Decimal

  const ALLOWLIST_URL_TTL: int := 5 * MINUTE

  type Bytes = seq<byte>

  /** The signing key and HMAC-SHA256. */
  datatype Manager = Manager(secret: Bytes, hmac: (Bytes, string) -> Bytes)

  datatype Signed = Signed(token: string, exp: int)

  function Unix(t: Time): int {
    t / SECOND
  }

  function Message(name: string, exp: int): string {
    name + ":" + FormatInt(exp)
  }

  function Token(m: Manager, name: string, exp: int): string {
    Encode(m.hmac(m.secret, Message(name, exp)))
  }

  function SignURL(m: Manager, name: string, ttl: int, now: Time): Signed {
    var exp := Unix(now + ttl);
    Signed(Token(m, name, exp), exp)
  }

  predicate ValidateSignedURL(m: Manager, name: string, token: string, exp: int, now: Time) {
    if Unix(now) > exp then false else token == Token(m, name, exp)
  }

  /** The signed message is unambiguous, even for names that contain colons. */
  lemma MessageInjective(a: string, x: int, b: string, y: int)
    requires Message(a, x) == Message(b, y)
    ensures a == b && x == y
  {
    var s, f, g := Message(a, x), FormatInt(x), FormatInt(y);
    assert s[|a|] == ':' && s[|b|] == ':';
    assert forall i :: |a| < i < |s| ==> s[i] == f[i - |a| - 1];
    assert forall i :: |b| < i < |s| ==> s[i] == g[i - |b| - 1];
    assert |a| == |b|;
    assert a == s[..|a|] == b;
    assert f == s[|a| + 1..] == g;
    FormatIntInjective(x, y);
  }

  /** The MAC tells these two messages apart, if they differ. */
  ghost predicate Distinguishes(m: Manager, s: string, t: string) {
    m.hmac(m.secret, s) == m.hmac(m.secret, t) ==> s == t
  }

  /** A token signed for a name validates for exactly that name and expiry, and exactly until the expiry. */
  lemma ValidatesExactly(m: Manager, name: string, ttl: int, signedAt: Time, other: string, exp: int, now: Time)
    requires var signed := SignURL(m, name, ttl, signedAt);
             Distinguishes(m, Message(name, signed.exp), Message(other, exp))
    ensures var signed := SignURL(m, name, ttl, signedAt);
            ValidateSignedURL(m, other, signed.token, exp, now) <==>
            other == name && exp == signed.exp && now / SECOND <= signed.exp
    ensures var signed := SignURL(m, name, ttl, signedAt);
            && signed.exp == (signedAt + ttl) / SECOND
            && Decode(signed.token) == Ok(m.hmac(m.secret, name + ":" + FormatInt(signed.exp)))
  {
    var signed := SignURL(m, name, ttl, signedAt);
    RoundTrip(m.hmac(m.secret, Message(name, signed.exp)));
    if signed.token == Token(m, other, exp) {
      EncodeInjective(m.hmac(m.secret, Message(name, signed.exp)), m.hmac(m.secret, Message(other, exp)));
      MessageInjective(name, signed.exp, other, exp);
    }
  }

  /** Whatever a request brings, it is let through exactly if its token is the lower-case hex of its own claim's MAC. */
  lemma OnlySignedValidate(m: Manager, name: string, token: string, exp: int, now: Time)
    ensures ValidateSignedURL(m, name, token, exp, now) <==>
            now / SECOND <= exp && token == Encode(m.hmac(m.secret, name + ":" + FormatInt(exp)))
  {
  }

  // ------------------------------------------------------------ the link

  /** What follows the question mark of a download link. */
  function LinkQuery(s: Signed): string {
    "exp=" + FormatInt(s.exp) + "&token=" + s.token
  }

  const DOWNLOADS: string := "/v3/allowlists/"

  /** Path and query of a request to download a list. */
  function DownloadTarget(name: string, query: string): string {
    DOWNLOADS + name + "/download?" + query
  }

  function AllowlistDownloadURL(m: Manager, baseURL: string, name: string, now: Time): string {
    baseURL + DownloadTarget(name, LinkQuery(SignURL(m, name, ALLOWLIST_URL_TTL, now)))
  }

  /** What comes before the first occurrence of a separator, and what comes after it. */
  function Cut(s: string, c: char): (r: (string, string))
    ensures |r.1| <= |s| && (s != "" ==> |r.1| < |s|)
  {
    if s == "" then ("", "")
    else if s[0] == c then ("", s[1..])
    else var (before, after) := Cut(s[1..], c); ([s[0]] + before, after)
  }

  /** The first value of a query parameter, "" if it is absent. Percent-decoding is the identity on links. */
  function Param(query: string, key: string): string
    decreases |query|
  {
    if query == "" then ""
    else
      var (pair, rest) := Cut(query, '&');
      var (k, v) := Cut(pair, '=');
      if k == key then v else Param(rest, key)
  }

  lemma {:induction false} CutAt(before: string, c: char, after: string)
    requires c !in before
    ensures Cut(before + [c] + after, c) == (before, after)
    ensures Cut(before, c) == (before, "")
  {
    if before != "" {
      CutAt(before[1..], c, after);
      assert (before + [c] + after)[1..] == before[1..] + [c] + after;
      assert [before[0]] + before[1..] == before;
    } else {
      assert before + [c] + after == [c] + after;
    }
  }

  /** A cut loses nothing but the separator. */
  lemma {:induction false} CutJoins(s: string, c: char)
    ensures if c in s then s == Cut(s, c).0 + [c] + Cut(s, c).1 else Cut(s, c) == (s, "")
  {
    if s != "" && s[0] != c {
      CutJoins(s[1..], c);
      assert s == [s[0]] + s[1..];
      assert c in s <==> c in s[1..];
    } else if s != "" {
      assert s == [] + [c] + s[1..];
    }
  }

  /** The first occurrence of a parameter counts, others are passed over, and an absent one is empty. */
  lemma ParamIsFirst(key: string, k: string, v: string, rest: string)
    requires '&' !in k && '=' !in k && '&' !in v
    ensures Param(k + "=" + v + "&" + rest, key) == if k == key then v else Param(rest, key)
    ensures Param(k + "=" + v, key) == if k == key then v else ""
    ensures Param("", key) == ""
  {
    var pair := k + ['='] + v;
    CutAt(k, '=', v);
    CutAt(pair, '&', rest);
    assert k + "=" + v + "&" + rest == pair + ['&'] + rest;
  }

  predicate Plain(s: string) {
    forall i :: 0 <= i < |s| ==> s[i] != '&' && s[i] != '=' && s[i] != '#'
  }

  lemma ParamsOfLink(exp: string, token: string)
    requires Plain(exp) && Plain(token)
    ensures Param("exp=" + exp + "&token=" + token, "exp") == exp
    ensures Param("exp=" + exp + "&token=" + token, "token") == token
  {
    var q := "exp=" + exp + "&token=" + token;
    var first, second := "exp=" + exp, "token=" + token;
    assert q == first + ['&'] + second;
    CutAt(first, '&', second);
    assert first == "exp" + ['='] + exp && second == "token" + ['='] + token;
    CutAt("exp", '=', exp);
    CutAt(second, '&', "");
    CutAt("token", '=', token);
  }

  lemma {:induction false} EncodePlain(bs: Bytes)
    ensures Plain(Encode(bs))
  {
    if bs != [] {
      EncodePlain(bs[1..]);
    }
  }

  /** The checks the download handler makes before it serves a list. */
  predicate Admitted(m: Manager, name: string, query: string, now: Time) {
    match ParseInt(Param(query, "exp"))
    case None => false
    case Some(exp) => ValidateSignedURL(m, name, Param(query, "token"), exp, now)
  }

  /** A request is admitted exactly if its exp parameter is an integer, not yet past, and its token is signed for it. */
  lemma AdmittedIff(m: Manager, name: string, query: string, now: Time)
    ensures Admitted(m, name, query, now) <==>
            exists exp :: ParseInt(Param(query, "exp")) == Some(exp) && now / SECOND <= exp &&
                          Param(query, "token") == Encode(m.hmac(m.secret, name + ":" + FormatInt(exp)))
  {
    match ParseInt(Param(query, "exp"))
    case None =>
    case Some(exp) => OnlySignedValidate(m, name, Param(query, "token"), exp, now);
  }

  /**
   A link made for a name opens that list, and no other, exactly until it expires. The clock readings are those a
   64-bit count of seconds can hold.
   */
  lemma LinkOpensExactly(m: Manager, name: string, madeAt: Time, other: string, now: Time)
    requires MIN_INT64 <= Unix(madeAt + ALLOWLIST_URL_TTL) <= MAX_INT64
    requires var exp := Unix(madeAt + ALLOWLIST_URL_TTL); Distinguishes(m, Message(name, exp), Message(other, exp))
    ensures Admitted(m, other, LinkQuery(SignURL(m, name, ALLOWLIST_URL_TTL, madeAt)), now) <==>
            other == name && now / SECOND <= (madeAt + 300 * SECOND) / SECOND
  {
    var signed := SignURL(m, name, ALLOWLIST_URL_TTL, madeAt);
    EncodePlain(m.hmac(m.secret, Message(name, signed.exp)));
    ParamsOfLink(FormatInt(signed.exp), signed.token);
    ParseFormatInt(signed.exp);
    ValidatesExactly(m, name, ALLOWLIST_URL_TTL, madeAt, other, signed.exp, now);
  }

  /**
   The list a path asks to download: the route matches one segment between its fixed parts. What the URL libraries at
   either end make of a segment is an input; they undo percent-encodings.
   */
  function Route(decode: string -> string, path: string): Option<string> {
    if DOWNLOADS <= path then
      var (segment, rest) := Cut(path[|DOWNLOADS|..], '/');
      if rest == "download" then Some(decode(segment)) else None
    else None
  }

  /** The list the server hands out when a link is followed, if any; the client keeps what follows a '#' to itself. */
  function Served(m: Manager, decode: string -> string, target: string, now: Time): Option<string> {
    var (path, query) := Cut(Cut(target, '#').0, '?');
    match Route(decode, path)
    case None => None
    case Some(name) => if Admitted(m, name, query, now) then Some(name) else None
  }

  /** A name that stays one segment of a path. */
  predicate OneSegment(name: string) {
    forall i :: 0 <= i < |name| ==> name[i] != '/' && name[i] != '?' && name[i] != '#'
  }

  /** Decoding makes no text longer. */
  ghost predicate Shortens(decode: string -> string) {
    forall s :: |decode(s)| <= |s|
  }

  lemma {:induction false} CutPrefix(s: string, c: char)
    ensures Cut(s, c).0 <= s && c !in Cut(s, c).0
  {
    if s != "" && s[0] != c {
      CutPrefix(s[1..], c);
    }
  }

  lemma QueryPlain(m: Manager, name: string, madeAt: Time)
    ensures '#' !in LinkQuery(SignURL(m, name, ALLOWLIST_URL_TTL, madeAt))
  {
    var signed := SignURL(m, name, ALLOWLIST_URL_TTL, madeAt);
    EncodePlain(m.hmac(m.secret, Message(name, signed.exp)));
    assert Plain(FormatInt(signed.exp)) && Plain(signed.token);
  }

  /** Nothing but a download path finds its way to the handler. */
  lemma RouteOnly(decode: string -> string, path: string)
    requires Route(decode, path).Some?
    ensures exists segment :: '/' !in segment && path == DOWNLOADS + segment + "/download"
                              && Route(decode, path) == Some(decode(segment))
  {
    var tail := path[|DOWNLOADS|..];
    var segment := Cut(tail, '/').0;
    CutPrefix(tail, '/');
    CutJoins(tail, '/');
    SlashJoined();
    Regrouped(DOWNLOADS, segment, ['/'], "download", "/download");
    assert path == DOWNLOADS + tail;
  }

  lemma SlashJoined()
    ensures ['/'] + "download" == "/download"
  {
  }

  lemma Regrouped(a: string, b: string, c: string, d: string, cd: string)
    requires c + d == cd
    ensures a + (b + c + d) == a + b + cd
  {
  }

  lemma RouteFinds(decode: string -> string, name: string)
    requires OneSegment(name)
    ensures Route(decode, DOWNLOADS + name + "/download") == Some(decode(name))
  {
    var path := DOWNLOADS + name + "/download";
    assert path[|DOWNLOADS|..] == name + ['/'] + "download";
    CutAt(name, '/', "download");
  }

  lemma TargetParses(decode: string -> string, name: string, query: string)
    requires OneSegment(name) && '#' !in query
    ensures Cut(DownloadTarget(name, query), '#').0 == DownloadTarget(name, query)
    ensures Cut(DownloadTarget(name, query), '?').1 == query
    ensures Route(decode, Cut(DownloadTarget(name, query), '?').0) == Some(decode(name))
  {
    var path := DOWNLOADS + name + "/download";
    assert DownloadTarget(name, query) == path + ['?'] + query;
    CutAt(DownloadTarget(name, query), '#', "");
    CutAt(path, '?', query);
    RouteFinds(decode, name);
  }

  /** A segment of the path is a piece of the target without separators. */
  lemma SegmentPlain(target: string)
    requires DOWNLOADS <= Cut(Cut(target, '#').0, '?').0
    ensures var segment := Cut(Cut(Cut(target, '#').0, '?').0[|DOWNLOADS|..], '/').0;
            OneSegment(segment) && |DOWNLOADS| + |segment| <= |target| && target[|DOWNLOADS|..][..|segment|] == segment
  {
    var asked := Cut(target, '#').0;
    var path := Cut(asked, '?').0;
    var segment := Cut(path[|DOWNLOADS|..], '/').0;
    CutPrefix(target, '#');
    CutPrefix(asked, '?');
    CutPrefix(path[|DOWNLOADS|..], '/');
    forall i | 0 <= i < |segment|
      ensures segment[i] != '/' && segment[i] != '?' && segment[i] != '#' && segment[i] == target[|DOWNLOADS| + i]
    {
      assert segment[i] == path[|DOWNLOADS|..][i] == path[|DOWNLOADS| + i] == asked[|DOWNLOADS| + i];
    }
  }

  /** A name that does not stay one segment is cut short where it ends: the route finds a shorter one, or none. */
  lemma BrokenName(decode: string -> string, name: string, query: string)
    requires !OneSegment(name) && Shortens(decode)
    ensures Route(decode, Cut(Cut(DownloadTarget(name, query), '#').0, '?').0) != Some(name)
  {
    var target := DownloadTarget(name, query);
    var path := Cut(Cut(target, '#').0, '?').0;
    if DOWNLOADS <= path {
      SegmentPlain(target);
      var segment := Cut(path[|DOWNLOADS|..], '/').0;
      assert target[|DOWNLOADS|..] == name + ("/download?" + query);
      var i :| 0 <= i < |name| && (name[i] == '/' || name[i] == '?' || name[i] == '#');
      assert target[|DOWNLOADS|..][i] == name[i];
      assert |segment| <= i;
      assert |decode(segment)| < |name|;
    }
  }

  lemma URLSpelled(m: Manager, baseURL: string, name: string, madeAt: Time)
    ensures var exp := (madeAt + 300 * SECOND) / SECOND;
            AllowlistDownloadURL(m, baseURL, name, madeAt) ==
            baseURL + "/v3/allowlists/" + name + "/download?exp=" + FormatInt(exp) + "&token="
            + Encode(m.hmac(m.secret, name + ":" + FormatInt(exp)))
  {
    var signed := SignURL(m, name, ALLOWLIST_URL_TTL, madeAt);
    LiteralJoined();
    Joined(baseURL + DOWNLOADS + name, "/download?", "exp=", FormatInt(signed.exp), "&token=", signed.token);
    Prefixed(baseURL, DOWNLOADS, name, "/download?", LinkQuery(signed));
  }

  lemma LiteralJoined()
    ensures "/download?" + "exp=" == "/download?exp="
  {
  }

  lemma Joined(a: string, d: string, e: string, f: string, g: string, h: string)
    ensures a + d + (e + f + g + h) == a + (d + e) + f + g + h
  {
  }

  lemma Prefixed(a: string, b: string, c: string, d: string, q: string)
    ensures a + (b + c + d + q) == a + b + c + d + q
  {
  }

  /**
   The whole URL, followed: the server hands out the list it was made for exactly until it expires, provided that the
   name stays one segment and survives decoding. For any other name the link never works, because nothing escapes it.
   */
  lemma LinkIsServed(m: Manager, decode: string -> string, baseURL: string, name: string, madeAt: Time, now: Time)
    requires Shortens(decode) && MIN_INT64 <= Unix(madeAt + ALLOWLIST_URL_TTL) <= MAX_INT64
    ensures var url := AllowlistDownloadURL(m, baseURL, name, madeAt);
            && (var exp := (madeAt + 300 * SECOND) / SECOND;
                url == baseURL + "/v3/allowlists/" + name + "/download?exp=" + FormatInt(exp) + "&token="
                       + Encode(m.hmac(m.secret, name + ":" + FormatInt(exp))))
            && baseURL <= url
            && (Served(m, decode, url[|baseURL|..], now) == Some(name) <==>
                OneSegment(name) && decode(name) == name && now / SECOND <= (madeAt + 300 * SECOND) / SECOND)
  {
    var query := LinkQuery(SignURL(m, name, ALLOWLIST_URL_TTL, madeAt));
    assert AllowlistDownloadURL(m, baseURL, name, madeAt)[|baseURL|..] == DownloadTarget(name, query);
    URLSpelled(m, baseURL, name, madeAt);
    if OneSegment(name) {
      QueryPlain(m, name, madeAt);
      TargetParses(decode, name, query);
      LinkOpensExactly(m, name, madeAt, name, now);
    } else {
      BrokenName(decode, name, query);
    }
  }

  /** With another name put into its path, it serves nothing. */
  lemma RenamedLinkServesNothing(
    m: Manager, decode: string -> string, name: string, madeAt: Time, other: string, now: Time)
    requires OneSegment(other) && decode(other) != name && MIN_INT64 <= Unix(madeAt + ALLOWLIST_URL_TTL) <= MAX_INT64
    requires var exp := Unix(madeAt + ALLOWLIST_URL_TTL);
             Distinguishes(m, Message(name, exp), Message(decode(other), exp))
    ensures var query := LinkQuery(SignURL(m, name, ALLOWLIST_URL_TTL, madeAt));
            Served(m, decode, DownloadTarget(other, query), now) == None
  {
    QueryPlain(m, name, madeAt);
    TargetParses(decode, other, LinkQuery(SignURL(m, name, ALLOWLIST_URL_TTL, madeAt)));
    LinkOpensExactly(m, name, madeAt, decode(other), now);
  }
}
