/**
  CONNECT requests of the egress proxy (scripts/agnes_egress_proxy.py): the parser of the request line that a client
  sends and the printer of the request that goes upstream (section 9.3.6 of RFC 9110). A character stands for a byte.
 */
module ConnectProxy {
  import opened Options
  import Decimal
  import Text

  datatype Problem = InvalidRequest | ConnectRequired | AuthorityInvalid | PortInvalid

  datatype Target = Target(host: string, port: nat) | Refused(problem: Problem)

  const MAX_PORT := 65535

  predicate Ascii(s: string) {
    forall i :: 0 <= i < |s| ==> s[i] < '\U{80}'
  }

  predicate IsUpper(c: char) {
    'A' <= c <= 'Z'
  }

  function Lower(s: string): (r: string)
    ensures |r| == |s| && forall i :: 0 <= i < |s| ==> !IsUpper(r[i])
    ensures (forall i :: 0 <= i < |s| ==> !IsUpper(s[i])) ==> r == s
  {
    seq(|s|, i requires 0 <= i < |s| => if IsUpper(s[i]) then s[i] + 32 as char else s[i])
  }

  function Upper(s: string): (r: string)
    ensures |r| == |s|
  {
    seq(|s|, i requires 0 <= i < |s| => if 'a' <= s[i] <= 'z' then s[i] - 32 as char else s[i])
  }

  /** The text without the dots at its end. */
  function StripDots(s: string): (r: string)
    ensures r <= s && (r != "" ==> r[|r| - 1] != '.')
    ensures forall i :: |r| <= i < |s| ==> s[i] == '.'
  {
    if s != "" && s[|s| - 1] == '.' then StripDots(s[..|s| - 1]) else s
  }

  /** The text before and after the first occurrence of a character. */
  function Cut(s: string, c: char): (r: Option<(string, string)>)
    ensures r.None? <==> c !in s
    ensures r.Some? ==> c !in r.value.0 && s == r.value.0 + [c] + r.value.1
  {
    if s == "" then None
    else if s[0] == c then Some(("", s[1..]))
    else
      var rest := Cut(s[1..], c);
      if rest.None? then None else Some(([s[0]] + rest.value.0, rest.value.1))
  }

  /** The text before and after the last occurrence of a character. */
  function CutLast(s: string, c: char): (r: Option<(string, string)>)
    ensures r.None? <==> c !in s
    ensures r.Some? ==> c !in r.value.1 && s == r.value.0 + [c] + r.value.1
  {
    if s == "" then None
    else
      var n := |s| - 1;
      if s[n] == c then Some((s[..n], ""))
      else
        var rest := CutLast(s[..n], c);
        if rest.None? then None else Some((rest.value.0, rest.value.1 + [s[n]]))
  }

  /** The three parts of a request line: the first two spaces separate them. */
  datatype Parts = Parts(method_: string, authority: string, version: string)

  function Split(line: string): Option<Parts> {
    var first := Cut(line, ' ');
    if first.None? then None
    else
      var second := Cut(first.value.1, ' ');
      if second.None? then None else Some(Parts(first.value.0, second.value.0, second.value.1))
  }

  const CONNECT := "CONNECT"
  const HTTP := "HTTP/"
  const VERSION := "HTTP/1.1"

  function ParseAuthority(authority: string): Target {
    var cut := CutLast(authority, ':');
    if cut.None? then Refused(AuthorityInvalid)
    else
      var host, port := cut.value.0, cut.value.1;
      if host == "" || !Decimal.AllDigits(port) then Refused(AuthorityInvalid)
      else if !(1 <= Decimal.Value(port) <= MAX_PORT) then Refused(PortInvalid)
      else Target(Lower(StripDots(host)), Decimal.Value(port))
  }

  function ParseConnectTarget(line: string): Target {
    if !Ascii(line) then Refused(InvalidRequest)
    else
      var parts := Split(Text.Strip(line));
      if parts.None? then Refused(InvalidRequest)
      else if Upper(parts.value.method_) != CONNECT || !(HTTP <= parts.value.version) then Refused(ConnectRequired)
      else ParseAuthority(parts.value.authority)
  }

  function Authority(host: string, port: nat): string {
    host + [':'] + Decimal.Print(port)
  }

  function RequestLine(host: string, port: nat): string {
    CONNECT + [' '] + (Authority(host, port) + [' '] + VERSION)
  }

  const CRLF := ['\r', '\n']

  function HeaderLines(lines: seq<string>): string {
    if lines == [] then CRLF else lines[0] + (CRLF + HeaderLines(lines[1..]))
  }

  const HOST := "Host: "
  const KEEP_ALIVE := "Proxy-Connection: Keep-Alive"
  const AUTHORIZATION := "Proxy-Authorization: Basic "

  function Headers(host: string, port: nat, credentials: Option<string>): seq<string> {
    [RequestLine(host, port), HOST + Authority(host, port), KEEP_ALIVE]
    + if credentials.Some? then [AUTHORIZATION + credentials.value] else []
  }

  /** The request, unless it cannot be encoded; `credentials` is the encoded credential, if there is one. */
  function BuildUpstreamConnectRequest(host: string, port: nat, credentials: Option<string>): Option<string> {
    var request := HeaderLines(Headers(host, port, credentials));
    if Ascii(request) then Some(request) else None
  }

  /** A line end occurs in the text. */
  predicate HasLineEnd(s: string) {
    exists i :: 0 < i < |s| && s[i - 1] == '\r' && s[i] == '\n'
  }

  /** The bytes before the first line end. */
  function FirstLine(s: string): (r: string)
    ensures r <= s
    ensures !HasLineEnd(r)
  {
    if |s| < 2 then s
    else if s[0] == '\r' && s[1] == '\n' then ""
    else [s[0]] + FirstLine(s[1..])
  }

  // ----- Cutting -----

  lemma CutUnique(a: string, c: char, b: string)
    requires c !in a
    ensures Cut(a + [c] + b, c) == Some((a, b))
  {
    var s := a + [c] + b;
    assert s[|a|] == c;
    var cut := Cut(s, c).value;
    Text.SplitAtFirst(a, b, cut.0, cut.1, c);
  }

  lemma CutLastUnique(a: string, c: char, b: string)
    requires c !in b
    ensures CutLast(a + [c] + b, c) == Some((a, b))
  {
    var s := a + [c] + b;
    assert s[|a|] == c;
    var cut := CutLast(s, c).value;
    var t := cut.0 + [c] + cut.1;
    assert s[|cut.0|] == c && t[|a|] == c;
    assert |a| >= |cut.0| && |cut.0| >= |a|;
    assert a == s[..|a|] && b == s[|a| + 1..];
    assert cut.0 == t[..|a|] && cut.1 == t[|a| + 1..];
  }

  lemma SplitUnique(method_: string, authority: string, version: string)
    requires ' ' !in method_ && ' ' !in authority
    ensures Split(method_ + [' '] + (authority + [' '] + version)) == Some(Parts(method_, authority, version))
  {
    CutUnique(method_, ' ', authority + [' '] + version);
    CutUnique(authority, ' ', version);
  }

  // ----- What the parser accepts -----

  /** A request line in pieces: the parser accepts exactly the texts that can be taken apart like this. */
  ghost predicate Accepts(line: string, method_: string, host: string, digits: string, version: string) {
    && Text.Strip(line) == method_ + [' '] + ((host + [':'] + digits) + [' '] + version)
    && ' ' !in method_ && ' ' !in host
    && Upper(method_) == "CONNECT" && "HTTP/" <= version
    && host != "" && Decimal.AllDigits(digits) && 1 <= Decimal.Value(digits) <= 65535
  }

  lemma DigitsAreNoSeparators(digits: string)
    requires Decimal.AllDigits(digits)
    ensures ' ' !in digits && ':' !in digits
  {
  }

  lemma AcceptedIsParsed(line: string, method_: string, host: string, digits: string, version: string)
    requires Ascii(line) && Accepts(line, method_, host, digits, version)
    ensures ParseConnectTarget(line) == Target(Lower(StripDots(host)), Decimal.Value(digits))
  {
    DigitsAreNoSeparators(digits);
    SplitUnique(method_, host + [':'] + digits, version);
    CutLastUnique(host, ':', digits);
  }

  lemma ParsedIsAccepted(line: string)
    returns (method_: string, host: string, digits: string, version: string)
    requires ParseConnectTarget(line).Target?
    ensures Ascii(line) && Accepts(line, method_, host, digits, version)
    ensures ParseConnectTarget(line) == Target(Lower(StripDots(host)), Decimal.Value(digits))
  {
    var parts := Split(Text.Strip(line)).value;
    var cut := CutLast(parts.authority, ':').value;
    method_, host, digits, version := parts.method_, cut.0, cut.1, parts.version;
  }

  // ----- Hosts -----

  /** The hosts that come back from a printed request line. */
  ghost predicate PlainHost(host: string) {
    && host != "" && Ascii(host) && ' ' !in host
    && (forall i :: 0 <= i < |host| ==> !IsUpper(host[i]))
    && host[|host| - 1] != '.'
  }

  /** Stripping leaves a slice. */
  lemma StripSlice(s: string) returns (i: nat, j: nat)
    ensures i <= j <= |s| && Text.Strip(s) == s[i..j]
  {
    i := LeftSlice(s);
    var k := RightSlice(s[i..]);
    j := i + k;
  }

  lemma {:induction false} LeftSlice(s: string) returns (i: nat)
    ensures i <= |s| && Text.StripLeft(s) == s[i..]
  {
    i := 0;
    if s != "" && Text.IsSpace(s[0]) {
      var k := LeftSlice(s[1..]);
      i := k + 1;
    }
  }

  lemma {:induction false} RightSlice(s: string) returns (j: nat)
    ensures j <= |s| && Text.StripRight(s) == s[..j]
  {
    j := |s|;
    if s != "" && Text.IsSpace(s[j - 1]) {
      j := RightSlice(s[..j - 1]);
    }
  }

  lemma StripKeeps(s: string)
    requires s != "" && !Text.IsSpace(s[0]) && !Text.IsSpace(s[|s| - 1])
    ensures Text.Strip(s) == s
  {
  }

  /** Lowering what precedes the trailing dots leaves a plain host or nothing. */
  lemma LoweredHost(host: string)
    requires Ascii(host) && ' ' !in host
    ensures var h := Lower(StripDots(host)); (h != "" ==> PlainHost(h)) && (HasLineEnd(h) ==> HasLineEnd(host))
  {
    var prefix := StripDots(host);
    var h := Lower(prefix);
    forall i | 0 <= i < |h| ensures h[i] < '\U{80}' && h[i] != ' ' {
      assert prefix[i] == host[i] && host[i] in host;
    }
    if HasLineEnd(h) {
      var i :| 0 < i < |h| && h[i - 1] == '\r' && h[i] == '\n';
      assert host[i - 1] == '\r' && host[i] == '\n';
    }
  }

  /** What holds of a text holds of its parts, and a line end in a part is one in the text. */
  lemma PartOf(before: string, s: string, after: string, whole: string)
    requires whole == before + s + after
    ensures Ascii(whole) ==> Ascii(s)
    ensures HasLineEnd(s) ==> HasLineEnd(whole)
  {
    assert forall i :: 0 <= i < |s| ==> s[i] == whole[|before| + i];
    if HasLineEnd(s) {
      var i :| 0 < i < |s| && s[i - 1] == '\r' && s[i] == '\n';
      assert whole[|before| + i - 1] == '\r' && whole[|before| + i] == '\n';
    }
  }

  /** A parsed host is plain or empty, its port is in range, and it holds a line end only if the line does. */
  lemma ParsedShape(line: string)
    requires ParseConnectTarget(line).Target?
    ensures var t := ParseConnectTarget(line);
      && (t.host != "" ==> PlainHost(t.host)) && 1 <= t.port <= 65535
      && (HasLineEnd(t.host) ==> HasLineEnd(line))
  {
    var method_, host, digits, version := ParsedIsAccepted(line);
    HostInLine(line, method_, host, digits, version);
    LoweredHost(host);
  }

  lemma HostInLine(line: string, method_: string, host: string, digits: string, version: string)
    requires Ascii(line) && Text.Strip(line) == method_ + [' '] + ((host + [':'] + digits) + [' '] + version)
    ensures Ascii(host) && (HasLineEnd(host) ==> HasLineEnd(line))
  {
    var i, j := StripSlice(line);
    var inner := Text.Strip(line);
    PartOf(line[..i], inner, line[j..], line);
    Around(method_, host, digits, version);
    PartOf(method_ + [' '], host, ([':'] + digits) + [' '] + version, inner);
  }

  lemma Around(method_: string, host: string, digits: string, version: string)
    ensures method_ + [' '] + ((host + [':'] + digits) + [' '] + version)
         == (method_ + [' ']) + host + (([':'] + digits) + [' '] + version)
  {
  }

  // ----- Round trips -----

  lemma RequestLineStrips(host: string, port: nat)
    ensures Text.Strip(RequestLine(host, port)) == RequestLine(host, port)
  {
    var line := RequestLine(host, port);
    assert line[0] == 'C' && line[|line| - 1] == VERSION[7] == '1';
    StripKeeps(line);
  }

  lemma PrintedIsAscii(host: string, port: nat)
    ensures Ascii(RequestLine(host, port)) <==> Ascii(host)
  {
    var line := RequestLine(host, port);
    Decimal.RoundTrip(port);
    assert |CONNECT| == 7 && |VERSION| == 8 && Ascii(CONNECT) && Ascii(VERSION);
    assert line == (CONNECT + [' ']) + host + ([':'] + Decimal.Print(port) + [' '] + VERSION);
    if Ascii(line) {
      forall i | 0 <= i < |host| ensures host[i] < '\U{80}' {
        assert line[8 + i] == host[i];
      }
    }
  }

  lemma PlainHostReturns(host: string, port: nat)
    requires PlainHost(host) && 1 <= port <= 65535
    ensures ParseConnectTarget(RequestLine(host, port)) == Target(host, port)
  {
    PrintedIsAscii(host, port);
    RequestLineStrips(host, port);
    Decimal.RoundTrip(port);
    assert Upper(CONNECT) == CONNECT;
    AcceptedIsParsed(RequestLine(host, port), CONNECT, host, Decimal.Print(port), VERSION);
    assert StripDots(host) == host && Lower(host) == host;
  }

  lemma PrintedAuthority(host: string, port: nat)
    requires Ascii(host) && ' ' !in host
    ensures ParseConnectTarget(RequestLine(host, port)) == ParseAuthority(Authority(host, port))
  {
    Decimal.RoundTrip(port);
    DigitsAreNoSeparators(Decimal.Print(port));
    PrintedIsAscii(host, port);
    RequestLineStrips(host, port);
    SplitUnique(CONNECT, Authority(host, port), VERSION);
    assert Upper(CONNECT) == CONNECT && HTTP <= VERSION;
  }

  lemma EmptyHostRefused(port: nat)
    ensures !ParseConnectTarget(RequestLine("", port)).Target?
  {
    PrintedAuthority("", port);
    Decimal.RoundTrip(port);
    DigitsAreNoSeparators(Decimal.Print(port));
    CutLastUnique("", ':', Decimal.Print(port));
  }

  /** A printed request line is read back as printed exactly for the plain hosts and the legal ports. */
  lemma LineRoundTrip(host: string, port: nat)
    ensures ParseConnectTarget(RequestLine(host, port)) == Target(host, port) <==> PlainHost(host) && 1 <= port <= 65535
  {
    if ParseConnectTarget(RequestLine(host, port)) == Target(host, port) {
      ParsedShape(RequestLine(host, port));
      EmptyHostRefused(port);
    } else if PlainHost(host) && 1 <= port <= 65535 {
      PlainHostReturns(host, port);
    }
  }

  /** Nothing but dots. */
  predicate AllDots(host: string) {
    forall i :: 0 <= i < |host| ==> host[i] == '.'
  }

  lemma StripsToNothing(host: string)
    ensures Lower(StripDots(host)) == "" <==> AllDots(host)
  {
    var rest := StripDots(host);
    if rest != "" {
      assert host[|rest| - 1] == rest[|rest| - 1] != '.';
    }
  }

  /** The host that the parser returns is empty exactly if the line names nothing but dots. */
  lemma EmptyHostExactlyDots(line: string, method_: string, host: string, digits: string, version: string)
    requires Ascii(line) && Accepts(line, method_, host, digits, version)
    ensures ParseConnectTarget(line).Target? && (ParseConnectTarget(line).host == "" <==> AllDots(host))
  {
    AcceptedIsParsed(line, method_, host, digits, version);
    StripsToNothing(host);
  }

  /** What was parsed can be forwarded, and read as the same target, exactly if the line names more than dots. */
  lemma ForwardedTarget(line: string, method_: string, host: string, digits: string, version: string)
    requires Ascii(line) && Accepts(line, method_, host, digits, version)
    ensures var t := ParseConnectTarget(line);
            t.Target? && (ParseConnectTarget(RequestLine(t.host, t.port)) == t <==> !AllDots(host))
  {
    EmptyHostExactlyDots(line, method_, host, digits, version);
    ParsedShape(line);
    var t := ParseConnectTarget(line);
    LineRoundTrip(t.host, t.port);
  }

  /** Such lines are accepted: dots as a host give an empty host, which cannot be forwarded. */
  lemma DotsAreEmptyHost(dots: string, port: nat)
    requires dots != "" && AllDots(dots) && 1 <= port <= 65535
    ensures ParseConnectTarget(RequestLine(dots, port)) == Target("", port)
    ensures !ParseConnectTarget(RequestLine("", port)).Target?
  {
    PrintedIsAscii(dots, port);
    RequestLineStrips(dots, port);
    Decimal.RoundTrip(port);
    assert Upper(CONNECT) == CONNECT;
    AcceptedIsParsed(RequestLine(dots, port), CONNECT, dots, Decimal.Print(port), VERSION);
    StripsToNothing(dots);
    EmptyHostRefused(port);
  }

  lemma TailLineEnd(line: string)
    requires line != ""
    ensures HasLineEnd(line[1..]) ==> HasLineEnd(line)
  {
    PartOf([line[0]], line[1..], "", line);
  }

  lemma {:induction false} FirstLineOf(line: string, rest: string)
    requires !HasLineEnd(line)
    ensures FirstLine(line + (CRLF + rest)) == line
  {
    var s := line + (CRLF + rest);
    if line == "" {
      assert s[0] == '\r' && s[1] == '\n';
    } else {
      assert s[0] == line[0] && (|line| == 1 ==> s[1] == '\r') && (|line| > 1 ==> s[1] == line[1]);
      assert |line| > 1 ==> !(line[0] == '\r' && line[1] == '\n');
      TailLineEnd(line);
      FirstLineOf(line[1..], rest);
      assert s[1..] == line[1..] + (CRLF + rest);
    }
  }

  /** The printed request starts with its request line. */
  lemma RequestStarts(host: string, port: nat, credentials: Option<string>) returns (rest: string)
    requires BuildUpstreamConnectRequest(host, port, credentials).Some?
    ensures BuildUpstreamConnectRequest(host, port, credentials).value == RequestLine(host, port) + (CRLF + rest)
  {
    var lines := Headers(host, port, credentials);
    rest := HeaderLines(lines[1..]);
  }

  /** A line end in the request line is one in the host. */
  lemma LineEndIsInHost(host: string, port: nat)
    ensures HasLineEnd(RequestLine(host, port)) <==> HasLineEnd(host)
  {
    var line := RequestLine(host, port);
    var before, after := CONNECT + [' '], ([':'] + Decimal.Print(port)) + [' '] + VERSION;
    Around(CONNECT, host, Decimal.Print(port), VERSION);
    assert line == before + host + after;
    PartOf(before, host, after, line);
    Decimal.RoundTrip(port);
    Between(before, host, after);
  }

  /** A line end between texts without one is in the middle. */
  lemma Between(before: string, s: string, after: string)
    requires before != "" && before[|before| - 1] != '\r' && '\n' !in before && '\n' !in after
    ensures HasLineEnd(before + s + after) ==> HasLineEnd(s)
  {
    var t := before + s + after;
    assert forall i :: 0 <= i < |before| ==> t[i] == before[i];
    assert forall i :: |before| + |s| <= i < |t| ==> t[i] == after[i - |before| - |s|];
    if HasLineEnd(t) {
      var i :| 0 < i < |t| && t[i - 1] == '\r' && t[i] == '\n';
      var k := i - |before|;
      assert 0 < k < |s| && s[k - 1] == '\r' && s[k] == '\n';
    }
  }

  lemma HeaderLinesAscii(lines: seq<string>)
    ensures Ascii(HeaderLines(lines)) <==> forall i :: 0 <= i < |lines| ==> Ascii(lines[i])
  {
    if lines != [] {
      HeaderLinesAscii(lines[1..]);
      var rest := CRLF + HeaderLines(lines[1..]);
      PartOf("", lines[0], rest, HeaderLines(lines));
      PartOf(lines[0] + CRLF, HeaderLines(lines[1..]), "", HeaderLines(lines));
      assert lines == [lines[0]] + lines[1..];
    }
  }

  /**
    The request sent upstream, read by the proxy's own parser, names the target that it was built for exactly when
    the host is plain and without a line end and the port is legal; colons in the host are no obstacle.
   */
  lemma RequestRoundTrip(host: string, port: nat, credentials: Option<string>)
    requires credentials.Some? ==> Ascii(credentials.value)
    ensures var request := BuildUpstreamConnectRequest(host, port, credentials);
      (request.Some? && ParseConnectTarget(FirstLine(request.value)) == Target(host, port)
       <==> PlainHost(host) && !HasLineEnd(host) && 1 <= port <= 65535)
  {
    var request := BuildUpstreamConnectRequest(host, port, credentials);
    BuildsAscii(host, port, credentials);
    if request.Some? {
      var rest := RequestStarts(host, port, credentials);
      LineEndIsInHost(host, port);
      if !HasLineEnd(host) {
        FirstLineOf(RequestLine(host, port), rest);
        LineRoundTrip(host, port);
      } else if ParseConnectTarget(FirstLine(request.value)).Target? {
        ParsedShape(FirstLine(request.value));
      }
    }
  }

  lemma BuildsAscii(host: string, port: nat, credentials: Option<string>)
    requires credentials.Some? ==> Ascii(credentials.value)
    ensures BuildUpstreamConnectRequest(host, port, credentials).Some? <==> Ascii(host)
  {
    var lines := Headers(host, port, credentials);
    HeaderLinesAscii(lines);
    PrintedIsAscii(host, port);
    assert lines[0] == RequestLine(host, port);
    if Ascii(host) {
      Decimal.RoundTrip(port);
      assert Ascii(Authority(host, port));
      FixedTextsAreAscii();
      JoinedAscii(HOST, Authority(host, port));
      if credentials.Some? {
        JoinedAscii(AUTHORIZATION, credentials.value);
      }
      assert forall i :: 0 <= i < |lines| ==> Ascii(lines[i]);
    }
  }

  lemma FixedTextsAreAscii()
    ensures Ascii(HOST) && Ascii(KEEP_ALIVE) && Ascii(AUTHORIZATION)
  {
  }

  lemma JoinedAscii(a: string, b: string)
    requires Ascii(a) && Ascii(b)
    ensures Ascii(a + b)
  {
  }

  // ----- The whole request, line by line -----

  /** The lines of a request up to the empty one. */
  function LinesOf(s: string): (lines: seq<string>)
    ensures forall line :: line in lines ==> line != "" && !HasLineEnd(line)
    decreases |s|
  {
    var line := FirstLine(s);
    if line == "" || |s| < |line| + 2 then [] else [line] + LinesOf(s[|line| + 2..])
  }

  lemma {:induction false} LinesReadBack(lines: seq<string>)
    requires forall k :: 0 <= k < |lines| ==> lines[k] != "" && !HasLineEnd(lines[k])
    ensures LinesOf(HeaderLines(lines)) == lines
  {
    if lines == [] {
      FirstLineOf("", "");
      assert CRLF == "" + (CRLF + "");
    } else {
      var rest := HeaderLines(lines[1..]);
      FirstLineOf(lines[0], rest);
      assert HeaderLines(lines)[|lines[0]| + 2..] == rest;
      LinesReadBack(lines[1..]);
      assert lines == [lines[0]] + lines[1..];
    }
  }

  /** The lines that a request should have. */
  function RequestLines(host: string, port: nat, credentials: Option<string>): seq<string> {
    var authority := host + ":" + Decimal.Print(port);
    ["CONNECT " + authority + " HTTP/1.1", "Host: " + authority, "Proxy-Connection: Keep-Alive"]
    + if credentials.Some? then ["Proxy-Authorization: Basic " + credentials.value] else []
  }

  lemma HeadersAreLines(host: string, port: nat, credentials: Option<string>)
    ensures Headers(host, port, credentials) == RequestLines(host, port, credentials)
  {
    assert RequestLine(host, port) == "CONNECT " + (host + ":" + Decimal.Print(port)) + " HTTP/1.1";
  }

  lemma LineEndsInLines(host: string, port: nat, credentials: Option<string>)
    ensures var lines := Headers(host, port, credentials);
            (forall k :: 0 <= k < |lines| ==> lines[k] != "" && !HasLineEnd(lines[k])) <==>
            !HasLineEnd(host) && (credentials.Some? ==> !HasLineEnd(credentials.value))
  {
    var lines := Headers(host, port, credentials);
    LineEndIsInHost(host, port);
    Decimal.RoundTrip(port);
    var after := [':'] + Decimal.Print(port);
    assert HOST + Authority(host, port) == HOST + host + after;
    PartOf(HOST, host, after, HOST + Authority(host, port));
    Between(HOST, host, after);
    assert !HasLineEnd(KEEP_ALIVE) && '\n' !in HOST && '\n' !in AUTHORIZATION;
    if credentials.Some? {
      assert AUTHORIZATION + credentials.value == AUTHORIZATION + credentials.value + "";
      PartOf(AUTHORIZATION, credentials.value, "", AUTHORIZATION + credentials.value);
      Between(AUTHORIZATION, credentials.value, "");
      assert lines[3] == AUTHORIZATION + credentials.value;
    }
    assert lines[0] == RequestLine(host, port) && lines[1] == HOST + Authority(host, port) && lines[2] == KEEP_ALIVE;
  }

  /** The printed request has exactly the intended lines if and only if neither the host nor the credential holds a line end. */
  lemma RequestReadsBack(host: string, port: nat, credentials: Option<string>)
    requires BuildUpstreamConnectRequest(host, port, credentials).Some?
    ensures LinesOf(BuildUpstreamConnectRequest(host, port, credentials).value) == RequestLines(host, port, credentials) <==>
            !HasLineEnd(host) && (credentials.Some? ==> !HasLineEnd(credentials.value))
  {
    var lines := Headers(host, port, credentials);
    HeadersAreLines(host, port, credentials);
    LineEndsInLines(host, port, credentials);
    if forall k :: 0 <= k < |lines| ==> lines[k] != "" && !HasLineEnd(lines[k]) {
      LinesReadBack(lines);
    }
    var read := LinesOf(HeaderLines(lines));
    assert forall k :: 0 <= k < |read| ==> read[k] in read;
  }
}
