/**
 * How src/tools/Url.cpp cuts the path out of a URL before it normalises it: strtok calls on one buffer. Whatever the
 * text, the path begins with a slash, so normalising it always ends.
 */
module UrlParse {
  import opened CText
  import opened Machine
  import opened UrlPath

  const MAX_URL_LEN := 1024

  // ---------------------------------------------------------------- strchr and strtok_r

  /** strchr, with the length for "not there". */
  function Chr(s: string, c: char): (n: nat)
    ensures n <= |s| && (n < |s| ==> s[n] == c)
    ensures forall i :: 0 <= i < n ==> s[i] != c
  {
    if s == "" || s[0] == c then 0 else 1 + Chr(s[1..], c)
  }

  function Skip(s: string, c: char): (r: string)
    ensures |r| <= |s| && (r == "" || r[0] != c)
  {
    if s != "" && s[0] == c then Skip(s[1..], c) else s
  }

  /** A token, whether a delimiter ended it, and where the next call goes on. */
  datatype Token = Token(text: Option<string>, ended: bool, rest: string)

  /** strtok_r with one delimiter: leading ones are skipped. */
  function Strtok(s: string, c: char): (t: Token)
    ensures |t.rest| <= |s| && (t.text.Some? ==> |t.text.value| + |t.rest| <= |s|)
  {
    var u := Skip(s, c);
    var n := Chr(u, c);
    if u == "" then Token(None, false, "")
    else if n < |u| then Token(Some(u[..n]), true, u[n + 1..])
    else Token(Some(u), false, "")
  }

  // ---------------------------------------------------------------- parse

  /** The URL with blanks inside it spelled out and trailing ones dropped, appended to temp. */
  function Spelled(s: string, temp: string): string
    decreases |s|
  {
    if s == "" then temp
    else if s[0] == ' ' && temp != "" then Spelled(s[1..], if SkipSpaces(s[1..]) != "" then temp + "%20" else temp)
    else Spelled(s[1..], temp + [s[0]])
  }

  function Lower(c: char): char {
    if 'A' <= c <= 'Z' then (c as int + 32) as char else c
  }

  /** strncasecmp with a prefix in lower case */
  predicate Begins(s: string, w: string) {
    |w| <= |s| && forall i :: 0 <= i < |w| ==> Lower(s[i]) == w[i]
  }

  predicate Supported(nurl: string) { Begins(nurl, "http://") || Begins(nurl, "https://") }

  /** What follows user, host and port in p, the text after the "//". */
  function AfterHost(p: string): (r: string)
    ensures |r| <= |p|
  {
    var q, slash, at := Chr(p, ':'), Chr(p, '/'), Chr(p, '@');
    if at < |p| && (slash == |p| || q == |p| || slash > q) then
      var host := if at < slash then p[at + 1..] else p;
      var t := Strtok(host, ':');
      Strtok(if t.text.Some? && t.ended then t.rest else host, '/').rest
    else if q < slash < |p| then
      var t := Strtok(p, ':');
      Strtok(if t.text.Some? then t.rest else p, '/').rest
    else Strtok(p, '/').rest
  }

  /** The path of p, the text after the scheme's colon: with a host, what the host leaves after one slash. */
  function PathIn(p: string): string {
    if "//" <= p then
      match Strtok(AfterHost(p[2..]), '\n').text
      case None => "/"
      case Some(t) => "/" + t
    else p
  }

  /** The text up to a '#'. */
  function BeforeHash(temp: string): string { temp[..Chr(temp, '#')] }

  /** The path that parse hands over to be normalised, if it gets that far. */
  function PathOf(text: string): Option<string> {
    var nurl := BeforeHash(Spelled(CString(text), ""));
    if |text| > MAX_URL_LEN || !Supported(nurl) then None
    else
      match Strtok(Strtok(nurl, ':').rest, '\n').text
      case None => None
      case Some(p) => Some(PathIn(p))
  }

  lemma SkipNone(s: string, c: char)
    requires s != "" && s[0] != c
    ensures Skip(s, c) == s
  {
  }

  lemma {:induction false} ChrIs(s: string, c: char, n: nat)
    requires n < |s| && s[n] == c && forall i :: 0 <= i < n ==> s[i] != c
    ensures Chr(s, c) == n
  {
    var k := Chr(s, c);
    assert !(k < n);
    assert !(k > n);
  }

  /** Past the colon of a supported scheme the text begins with "//": the branch for a URL without a host is never
      taken. */
  lemma HostFollows(nurl: string)
    requires Supported(nurl)
    ensures var t := Strtok(Strtok(nurl, ':').rest, '\n'); t.text.Some? && "//" <= t.text.value
  {
    hide Skip, Chr;
    var n := if Begins(nurl, "http://") then 4 else 5;
    assert Lower(nurl[n]) == ':' && Lower(nurl[n + 1]) == '/' && Lower(nurl[n + 2]) == '/';
    forall i | 0 <= i < n ensures nurl[i] != ':' {
      assert Lower(nurl[i]) == "https"[i];
    }
    SkipNone(nurl, ':');
    ChrIs(nurl, ':', n);
    var rest := nurl[n + 1..];
    assert Strtok(nurl, ':').rest == rest;
    SkipNone(rest, '\n');
    assert Chr(rest, '\n') >= 2;
  }

  /** Every path handed over begins with a slash. */
  lemma PathIsAbsolute(text: string)
    ensures PathOf(text).Some? ==> PathOf(text).value != "" && PathOf(text).value[0] == '/'
    ensures PathOf(text).None? <==> |text| > MAX_URL_LEN || !Supported(BeforeHash(Spelled(CString(text), "")))
  {
    hide Spelled, Supported, AfterHost;
    var nurl := BeforeHash(Spelled(CString(text), ""));
    if Supported(nurl) { HostFollows(nurl); }
  }

  // ---------------------------------------------------------------- URLs of the usual form

  /** strchr does not find c. */
  predicate Without(s: string, c: char) { Chr(s, c) == |s| }

  lemma {:induction false} ChrCat(a: string, b: string, c: char)
    ensures Chr(a + b, c) == if Without(a, c) then |a| + Chr(b, c) else Chr(a, c)
  {
    if a == "" {
      assert a + b == b;
    } else {
      assert (a + b)[1..] == a[1..] + b;
      ChrCat(a[1..], b, c);
    }
  }

  /** Where c is first in a + d + b, for another character d and for d itself. */
  lemma ChrAround(a: string, d: char, b: string, c: char)
    ensures Chr(a + [d] + b, c) == if !Without(a, c) then Chr(a, c) else if d == c then |a| else |a| + 1 + Chr(b, c)
  {
    assert a + [d] + b == a + ([d] + b);
    ChrCat(a, [d] + b, c);
    ChrCat([d], b, c);
  }

  lemma {:induction false} SpelledPlain(s: string, temp: string)
    requires ' ' !in s
    ensures Spelled(s, temp) == temp + s
    decreases |s|
  {
    if s != "" {
      SpelledPlain(s[1..], temp + [s[0]]);
      assert temp + [s[0]] + s[1..] == temp + s;
    } else {
      assert temp + s == temp;
    }
  }

  lemma StrtokCuts(a: string, c: char, b: string)
    requires a != "" && Without(a, c)
    ensures Strtok(a + [c] + b, c) == Token(Some(a), true, b)
  {
    var s := a + [c] + b;
    ChrAround(a, c, b, c);
    SkipNone(s, c);
    assert s[..|a|] == a && s[|a| + 1..] == b;
  }

  lemma StrtokAll(a: string, c: char)
    requires a != "" && Without(a, c)
    ensures Strtok(a, c) == Token(Some(a), false, "")
  {
    SkipNone(a, c);
  }

  lemma StrtokNone(c: char)
    ensures Strtok("", c) == Token(None, false, "")
  {
  }

  /** The host with its port, if it has one. */
  function HostPort(host: string, port: Option<string>): string {
    if port.Some? then host + ":" + port.value else host
  }

  predicate HostOk(host: string, port: Option<string>) {
    && host != "" && Without(host, ':') && Without(host, '/') && Without(host, '@')
    && (port.Some? ==> port.value != "" && Without(port.value, '/') && Without(port.value, '@'))
  }

  /** The user with its "@", if there is one. */
  function UserPart(user: Option<string>): string {
    if user.Some? then user.value + "@" else ""
  }

  predicate UserOk(user: Option<string>) {
    user.Some? ==> Without(user.value, '/') && Without(user.value, '@')
  }

  lemma HostPortHas(host: string, port: Option<string>)
    requires HostOk(host, port)
    ensures var f := HostPort(host, port);
            f != "" && Without(f, '/') && Without(f, '@') && Chr(f, ':') == |host| && (Without(f, ':') <==> port.None?)
  {
    hide Chr;
    if port.Some? {
      ChrAround(host, ':', port.value, '/');
      ChrAround(host, ':', port.value, '@');
      ChrAround(host, ':', port.value, ':');
    }
  }

  /** Past the slash that ends the host. */
  lemma PastSlash(front: string, path: string)
    requires front != "" && Without(front, '/')
    ensures Strtok(front + "/" + path, '/').rest == path
  {
    hide Strtok, Chr;
    StrtokCuts(front, '/', path);
  }

  /** Past the first colon, if there is one, and past the next slash. */
  function PastColon(p: string): string {
    var t := Strtok(p, ':');
    Strtok(if t.text.Some? && t.ended then t.rest else p, '/').rest
  }

  /** With a port the first colon is the port's; without one it is the path's. */
  lemma PastColonIs(host: string, port: Option<string>, path: string)
    requires HostOk(host, port)
    ensures PastColon(HostPort(host, port) + "/" + path)
            == if port.Some? || Without(path, ':') then path else Strtok(path[Chr(path, ':') + 1..], '/').rest
  {
    hide Strtok, Chr;
    var p := HostPort(host, port) + "/" + path;
    if port.Some? {
      assert p == host + [':'] + (port.value + "/" + path);
      StrtokCuts(host, ':', port.value + "/" + path);
      PastSlash(port.value, path);
    } else if Without(path, ':') {
      ChrAround(host, '/', path, ':');
      StrtokAll(p, ':');
      PastSlash(host, path);
    } else {
      var n := Chr(path, ':');
      var a, b := path[..n], path[n + 1..];
      ChrWhole(a, ':');
      ChrAround(host, '/', a, ':');
      assert p == (host + "/" + a) + [':'] + b;
      var front := host + "/" + a;
      assert Without(front, ':');
      StrtokCuts(front, ':', b);
    }
  }

  lemma ChrWhole(s: string, c: char)
    requires forall i :: 0 <= i < |s| ==> s[i] != c
    ensures Without(s, c)
  {
  }

  /** A colon in the user's part sends parse past the first colon after it: that is to be the port's, or not there. */
  predicate ColonsOk(user: Option<string>, port: Option<string>, path: string) {
    user.Some? && !Without(user.value, ':') && port.None? ==> Without(path, ':')
  }

  /** Past host and port, when there is no user before them. */
  lemma AfterHostPlain(host: string, port: Option<string>, path: string)
    requires HostOk(host, port)
    ensures AfterHost(HostPort(host, port) + "/" + path) == path
  {
    hide Strtok, Chr, HostPort;
    var f := HostPort(host, port);
    var p := f + "/" + path;
    HostPortHas(host, port);
    ChrAround(f, '/', path, '/');
    ChrAround(f, '/', path, '@');
    ChrAround(f, '/', path, ':');
    PastSlash(f, path);
    PastColonIs(host, port, path);
    if port.Some? { FirstColon(host, port, path); }
  }

  lemma FirstColon(host: string, port: Option<string>, path: string)
    requires HostOk(host, port) && port.Some?
    ensures Strtok(HostPort(host, port) + "/" + path, ':') == Token(Some(host), true, port.value + "/" + path)
  {
    hide Strtok, Chr;
    assert HostPort(host, port) + "/" + path == host + [':'] + (port.value + "/" + path);
    StrtokCuts(host, ':', port.value + "/" + path);
  }

  /** Past user, host and port. */
  lemma AfterHostUser(user: string, host: string, port: Option<string>, path: string)
    requires HostOk(host, port) && UserOk(Some(user))
    ensures AfterHost(user + "@" + HostPort(host, port) + "/" + path)
            == if ColonsOk(Some(user), port, path) then path else Strtok(path[Chr(path, ':') + 1..], '/').rest
  {
    hide Strtok, Chr, HostPort, HostOk;
    var f := HostPort(host, port);
    var tail := f + "/" + path;
    var front := user + "@" + f;
    var p := front + "/" + path;
    assert p == user + ['@'] + tail && p[|user| + 1..] == tail;
    HostPortHas(host, port);
    ChrAround(user, '@', f, '/');
    ChrAround(user, '@', f, ':');
    ChrAround(user, '@', tail, '@');
    ChrAround(front, '/', path, '/');
    ChrAround(front, '/', path, ':');
    PastSlash(front, path);
    PastColonIs(host, port, path);
  }

  lemma AfterHostIs(user: Option<string>, host: string, port: Option<string>, path: string)
    requires UserOk(user) && HostOk(host, port)
    ensures var r := AfterHost(UserPart(user) + HostPort(host, port) + "/" + path);
            if ColonsOk(user, port, path) then r == path else |r| < |path|
  {
    hide AfterHost, HostPort, UserOk, HostOk, Strtok, Chr;
    var front := UserPart(user) + HostPort(host, port);
    if user.Some? {
      AfterHostUser(user.value, host, port, path);
    } else {
      assert front == HostPort(host, port);
      AfterHostPlain(host, port, path);
    }
  }

  /** Nothing that is spelled out, cut off or ends the text. */
  predicate Plain(s: string) { ' ' !in s && NUL !in s && '#' !in s && '\n' !in s }

  lemma PastScheme(scheme: string, p: string)
    requires (scheme == "http" || scheme == "https") && Plain(p) && |scheme| + 3 + |p| <= 1024
    ensures PathOf(scheme + "://" + p) == Some(PathIn("//" + p))
  {
    hide Strtok, PathIn, Spelled, Chr, CString;
    var text := scheme + "://" + p;
    assert Plain(text);
    CStringWhole(text);
    SpelledPlain(text, "");
    assert "" + text == text;
    ChrWhole(text, '#');
    assert BeforeHash(text) == text;
    SchemeOk(scheme, p);
    var rest := "//" + p;
    assert text == scheme + [':'] + rest;
    ChrWhole(scheme, ':');
    StrtokCuts(scheme, ':', rest);
    ChrWhole(rest, '\n');
    StrtokAll(rest, '\n');
  }

  lemma SchemeOk(scheme: string, p: string)
    requires scheme == "http" || scheme == "https"
    ensures Supported(scheme + "://" + p)
  {
  }

  /** In a URL of the usual form, what stands past the slash after the host is the path, whatever colons, at-signs and
      slashes it holds, if and only if the colons are in order. */
  lemma PathFound(scheme: string, user: Option<string>, host: string, port: Option<string>, path: string)
    requires (scheme == "http" || scheme == "https") && UserOk(user) && HostOk(host, port)
    requires var p := UserPart(user) + HostPort(host, port) + "/" + path; Plain(p) && |scheme| + 3 + |p| <= 1024
    ensures PathOf(scheme + "://" + (UserPart(user) + HostPort(host, port) + "/" + path)) == Some("/" + path)
            <==> ColonsOk(user, port, path)
  {
    hide Strtok, AfterHost, HostPort, UserPart, Chr, PathOf, ColonsOk, HostOk, UserOk, Without;
    var p := UserPart(user) + HostPort(host, port) + "/" + path;
    PastScheme(scheme, p);
    assert ("//" + p)[2..] == p;
    AfterHostIs(user, host, port, path);
    var r := AfterHost(p);
    StrtokNone('\n');
    assert "/" + "" == "/";
    if path != "" && ColonsOk(user, port, path) {
      assert forall i :: 0 <= i < |path| ==> path[i] in p;
      ChrWhole(path, '\n');
      StrtokAll(path, '\n');
    } else if !ColonsOk(user, port, path) {
      match Strtok(r, '\n').text
      case None => assert PathIn("//" + p) == "/" && |"/" + path| > 1;
      case Some(t) => assert PathIn("//" + p) == "/" + t && |"/" + t| < |"/" + path|;
    }
  }

  lemma LastLine(t: string)
    requires '\n' !in t
    ensures Strtok(t, '\n').text == if t == "" then None else Some(t)
  {
    hide Strtok, Chr;
    StrtokNone('\n');
    if t != "" {
      ChrWhole(t, '\n');
      StrtokAll(t, '\n');
    }
  }

  /** With a colon in the user's part and no port, a path a:b/c is found to be c. */
  lemma ColonLost(scheme: string, user: string, host: string, a: string, b: string, c: string)
    requires (scheme == "http" || scheme == "https") && UserOk(Some(user)) && HostOk(host, None)
    requires !Without(user, ':') && Without(a, ':') && b != "" && Without(b, '/')
    requires var p := user + "@" + host + "/" + (a + ":" + (b + "/" + c)); Plain(p) && Plain(c) && |scheme| + 3 + |p| <= 1024
    ensures PathOf(scheme + "://" + (user + "@" + host + "/" + (a + ":" + (b + "/" + c)))) == Some("/" + c)
  {
    hide Strtok, AfterHost, Chr, PathOf, HostOk, UserOk;
    var path := a + ":" + (b + "/" + c);
    var p := user + "@" + host + "/" + path;
    PastScheme(scheme, p);
    assert ("//" + p)[2..] == p;
    AfterHostUser(user, host, None, path);
    assert path == a + ":" + (b + "/" + c);
    ChrAround(a, ':', b + "/" + c, ':');
    assert path[|a| + 1..] == b + "/" + c;
    PastSlash(b, c);
    assert AfterHost(p) == c;
    LastLine(c);
    assert "/" + "" == "/";
  }

  lemma ExampleOk()
    ensures UserOk(Some("u:p")) && HostOk("h", None)
    ensures !Without("u:p", ':') && Without("a", ':') && Without("b", '/')
  {
    hide Chr;
    ChrIs("u:p", ':', 1);
    ChrWhole("u:p", '/');
    ChrWhole("u:p", '@');
    ChrWhole("h", ':');
    ChrWhole("h", '/');
    ChrWhole("h", '@');
    ChrWhole("a", ':');
    ChrWhole("b", '/');
  }

  lemma ExamplePlain()
    ensures Plain("u:p" + "@" + "h" + "/" + ("a" + ":" + ("b" + "/" + "c"))) && Plain("c")
  {
  }

  lemma ColonExample()
    ensures PathOf("http://u:p@h/a:b/c") == Some("/c")
  {
    hide *;
    ExampleOk();
    ExamplePlain();
    ColonLost("http", "u:p", "h", "a", "b", "c");
    assert "http" + "://" + ("u:p" + "@" + "h" + "/" + ("a" + ":" + ("b" + "/" + "c"))) == "http://u:p@h/a:b/c";
    assert "/" + "c" == "/c";
  }

  lemma {:induction false} SpelledSize(s: string, temp: string)
    ensures |Spelled(s, temp)| <= |temp| + 3 * |s|
    decreases |s|
  {
    if s != "" {
      if s[0] == ' ' && temp != "" {
        SpelledSize(s[1..], if SkipSpaces(s[1..]) != "" then temp + "%20" else temp);
      } else {
        SpelledSize(s[1..], temp + [s[0]]);
      }
    }
  }

  lemma {:induction false} CStringSize(s: string)
    ensures |CString(s)| <= |s|
  {
    if s != "" && s[0] != NUL { CStringSize(s[1..]); }
  }

  lemma PathSize(text: string)
    ensures PathOf(text).Some? ==> |PathOf(text).value| < MAX_SIZE
  {
    hide Spelled, Supported, AfterHost, Strtok;
    CStringSize(text);
    SpelledSize(CString(text), "");
  }

  /** parse, as far as it concerns the path: it ends, and leaves the normal form of the path it found. */
  method Parse(u: CUrl, text: string) returns (ghost p: Segs, ghost q: string)
    modifies u
    ensures PathOf(text) == None ==> u.m_sPath == old(u.m_sPath)
    ensures PathOf(text).Some? ==>
      && PathOf(text).value == Text(p) + q && p != [] && Clean(p) && QueryOk(q)
      && u.m_sPath == Decode(Text(Norm(p, q != ""))) + q
  {
    hide Spelled, Supported, AfterHost, Strtok, Text, Norm, Decode, Clean, QueryOk, SkipSpaces;
    PathIsAbsolute(text);
    PathSize(text);
    p, q := [], "";
    if |text| > MAX_URL_LEN {
      return;
    }
    var temp := "";
    var urp := CString(text);
    while urp != ""
      invariant Spelled(urp, temp) == Spelled(CString(text), "") && u.m_sPath == old(u.m_sPath)
      decreases |urp|
    {
      SpelledStep(urp, temp);
      if urp[0] == ' ' && temp != "" {
        if SkipSpaces(urp[1..]) != "" {
          temp := temp + "%20";
        }
      } else {
        temp := temp + [urp[0]];
      }
      urp := urp[1..];
    }
    SpelledEnd(temp);
    assert Spelled(CString(text), "") == temp;
    var nurl := BeforeHash(temp);
    if !Supported(nurl) {
      return;
    }
    HostFollows(nurl);
    var rest := Strtok(Strtok(nurl, ':').rest, '\n').text.value;
    u.m_sPath := "/";
    var t := Strtok(AfterHost(rest[2..]), '\n').text;
    if t.Some? {
      u.m_sPath := u.m_sPath + t.value;
    }
    assert PathOf(text) == Some(u.m_sPath);
    p, q := AnyPath(u.m_sPath);
    u.NormalizePath(p, q);
  }

  lemma SpelledStep(s: string, temp: string)
    requires s != ""
    ensures Spelled(s, temp)
            == if s[0] == ' ' && temp != "" then Spelled(s[1..], if SkipSpaces(s[1..]) != "" then temp + "%20" else temp)
               else Spelled(s[1..], temp + [s[0]])
  {
  }

  lemma SpelledEnd(temp: string)
    ensures Spelled("", temp) == temp
  {
  }
}
