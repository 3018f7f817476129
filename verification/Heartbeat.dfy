/** The outbound heartbeat (src/heartbeat.rs): an outer loop that reconnects and an inner one
    that keeps sending on one connection.

    What each call answers and how long it takes is a script the loops cannot see ahead in;
    what they do is a trace of requests. `Next` says which request may follow, and the laws
    below are about every trace it allows. Times are in milliseconds. */
module Heartbeat {
  import opened Bytes
  import opened Decimal
  import opened Wrappers

  const PERIOD: nat := 5000

  // --- split_host_port ---------------------------------------------------------------------

  const COLON: Byte := 0x3A
  const SLASH: Byte := 0x2F
  const PLUS: Byte := 0x2B
  const SCHEME_END: seq<Byte> := [0x3A, 0x2F, 0x2F]
  const DEFAULT_PORT: nat := 443

  /** The position of the first occurrence of `what`, |s| if there is none. */
  function Find(s: seq<Byte>, what: seq<Byte>): (i: nat)
    ensures i <= |s|
    ensures i < |s| ==> i + |what| <= |s|
    decreases |s|
  {
    if s == [] || what <= s then 0 else Find(s[1..], what) + 1
  }

  /** str::parse::<u16>: an optional plus sign, then digits, no overflow. */
  function ParsePort(s: seq<Byte>): Option<nat> {
    var digits := if s != [] && s[0] == PLUS then s[1..] else s;
    if digits == [] then None else Digits(digits, 0)
  }

  function Digits(s: seq<Byte>, acc: nat): (r: Option<nat>)
    requires acc < 0x1_0000
    ensures r.Some? ==> r.value < 0x1_0000
    decreases |s|
  {
    if s == [] then Some(acc)
    else if !(0x30 <= s[0] <= 0x39) then None
    else
      var next := 10 * acc + (s[0] - 0x30);
      if next >= 0x1_0000 then None else Digits(s[1..], next)
  }

  /** What follows the scheme, if there is one. */
  function Rest(url: seq<Byte>): seq<Byte> {
    var at := Find(url, SCHEME_END);
    if at < |url| then url[at + 3..] else url
  }

  /** What follows the scheme, up to the first slash. */
  function Authority(url: seq<Byte>): seq<Byte> {
    Rest(url)[..Find(Rest(url), [SLASH])]
  }

  function HostPort(authority: seq<Byte>): Option<(seq<Byte>, nat)> {
    var colon := Find(authority, [COLON]);
    if 0 < colon < |authority| then
      var port := ParsePort(authority[colon + 1..]);
      Some((authority[..colon], if port.Some? then port.value else DEFAULT_PORT))
    else if authority != [] then Some((authority, DEFAULT_PORT))
    else None
  }

  function SplitHostPort(url: seq<Byte>): Option<(seq<Byte>, nat)> {
    HostPort(Authority(url))
  }

  /** `Find` is the first place where all of `what` stands, or the end. */
  lemma {:induction false} FindExactly(s: seq<Byte>, what: seq<Byte>, i: nat)
    requires what != [] && i <= |s|
    ensures Find(s, what) == i <==> (i < |s| ==> what <= s[i..]) && (forall j :: 0 <= j < i ==> !(what <= s[j..]))
    decreases |s|
  {
    if s != [] {
      assert s[0..] == s;
      if i > 0 {
        FindExactly(s[1..], what, i - 1);
        assert forall j :: 1 <= j <= |s| ==> s[1..][j - 1..] == s[j..];
      }
    }
  }

  lemma StartsWith(s: seq<Byte>, b: Byte)
    ensures [b] <= s <==> s != [] && s[0] == b
  {
    if s != [] {
      assert s[..1] == [s[0]];
    }
  }

  lemma FirstFound(s: seq<Byte>, b: Byte)
    ensures forall j :: 0 <= j < Find(s, [b]) ==> s[j] != b
    ensures Find(s, [b]) < |s| ==> s[Find(s, [b])] == b
  {
    var n := Find(s, [b]);
    FindExactly(s, [b], n);
    forall j | 0 <= j < n ensures s[j] != b {
      StartsWith(s[j..], b);
    }
    if n < |s| {
      StartsWith(s[n..], b);
    }
  }

  // The shapes a ctrl_url comes in.

  /** What stands behind the first "://" is the rest; without one, everything is. */
  lemma RestBehindScheme(scheme: seq<Byte>, rest: seq<Byte>)
    requires COLON !in scheme
    ensures Rest(scheme + [0x3A, 0x2F, 0x2F] + rest) == rest
  {
    var url := scheme + [0x3A, 0x2F, 0x2F] + rest;
    var n := |scheme|;
    assert url[n..] == [0x3A, 0x2F, 0x2F] + rest;
    forall j | 0 <= j < n ensures !([0x3A, 0x2F, 0x2F] <= url[j..]) {
      assert url[j..][0] == scheme[j];
    }
    FindExactly(url, SCHEME_END, n);
  }

  lemma RestWithoutScheme(url: seq<Byte>)
    requires forall j :: 0 <= j <= |url| ==> !([0x3A, 0x2F, 0x2F] <= url[j..])
    ensures Rest(url) == url
  {
    FindExactly(url, SCHEME_END, |url|);
  }

  predicate Tail(tail: seq<Byte>) {
    tail == [] || tail[0] == SLASH
  }

  lemma CutAtSlash(authority: seq<Byte>, tail: seq<Byte>)
    requires SLASH !in authority && Tail(tail)
    ensures var rest := authority + tail; rest[..Find(rest, [SLASH])] == authority
  {
    var rest := authority + tail;
    var n := |authority|;
    forall j | 0 <= j < n ensures !([SLASH] <= rest[j..]) {
      StartsWith(rest[j..], SLASH);
      assert rest[j] == authority[j];
    }
    if n < |rest| {
      StartsWith(rest[n..], SLASH);
    }
    FindExactly(rest, [SLASH], n);
  }

  predicate Host(host: seq<Byte>) {
    host != [] && COLON !in host && SLASH !in host
  }

  predicate Port(digits: seq<Byte>) {
    IsNumeral(digits) && Value(digits) < 0x1_0000
  }

  /** The port a text asks for: a number below 2^16, with or without a plus sign; else 443. */
  function PortOf(text: seq<Byte>): int {
    if Port(text) then Value(text)
    else if text != [] && text[0] == 0x2B && Port(text[1..]) then Value(text[1..])
    else 443
  }

  lemma HostAndPort(host: seq<Byte>, text: seq<Byte>)
    requires Host(host) && SLASH !in text
    ensures HostPort(host + [COLON] + text) == Some((host, PortOf(text)))
    ensures SLASH !in host + [COLON] + text
  {
    hide Value, ParsePort;
    var authority := host + [COLON] + text;
    var n := |host|;
    FirstFound(authority, COLON);
    var colon := Find(authority, [COLON]);
    assert authority[n] == COLON && (forall j :: 0 <= j < n ==> authority[j] == host[j]);
    assert colon == n;
    assert authority[n + 1..] == text && authority[..n] == host;
    PortIsNumber(text);
  }

  lemma HostAlone(host: seq<Byte>)
    requires Host(host)
    ensures HostPort(host) == Some((host, 443))
  {
    FirstFound(host, COLON);
  }

  /** scheme://host:port, with or without a path: that host and that port. The text behind the
      colon may be anything: what is no port number stands for 443. */
  lemma UrlWithPort(scheme: seq<Byte>, host: seq<Byte>, text: seq<Byte>, tail: seq<Byte>)
    requires COLON !in scheme && Host(host) && SLASH !in text && Tail(tail)
    ensures SplitHostPort(scheme + [0x3A, 0x2F, 0x2F] + (host + [COLON] + text + tail)) == Some((host, PortOf(text)))
  {
    hide HostPort, PortOf;
    RestBehindScheme(scheme, host + [COLON] + text + tail);
    HostAndPort(host, text);
    CutAtSlash(host + [COLON] + text, tail);
  }

  /** What a port text stands for, case by case. */
  lemma PortExactly(text: seq<Byte>, digits: seq<Byte>)
    ensures IsNumeral(digits) && Value(digits) < 0x1_0000 ==>
              PortOf(digits) == Value(digits) && PortOf([0x2B] + digits) == Value(digits)
    ensures !IsNumeral(text) && (text == [] || text[0] != 0x2B || !IsNumeral(text[1..])) ==> PortOf(text) == 443
    ensures IsNumeral(digits) && Value(digits) >= 0x1_0000 ==> PortOf(digits) == 443 && PortOf([0x2B] + digits) == 443
  {
    hide Value;
    assert ([0x2B] + digits)[1..] == digits;
    assert !IsDigit(([0x2B] + digits)[0]);
  }

  /** scheme://host, with or without a path: that host, port 443. */
  lemma UrlWithoutPort(scheme: seq<Byte>, host: seq<Byte>, tail: seq<Byte>)
    requires COLON !in scheme && Host(host) && Tail(tail)
    ensures SplitHostPort(scheme + [0x3A, 0x2F, 0x2F] + (host + tail)) == Some((host, 443))
  {
    hide HostPort, Value;
    RestBehindScheme(scheme, host + tail);
    HostAlone(host);
    CutAtSlash(host, tail);
  }

  /** Without a scheme the same holds of what is there, as long as no "://" follows in the path. */
  lemma UrlWithoutScheme(host: seq<Byte>, digits: seq<Byte>, tail: seq<Byte>)
    requires Host(host) && Port(digits) && Tail(tail)
    requires forall j :: 0 <= j <= |tail| ==> !([0x3A, 0x2F, 0x2F] <= tail[j..])
    ensures SplitHostPort(host + [COLON] + digits + tail) == Some((host, Value(digits)))
    ensures SplitHostPort(host + tail) == Some((host, 443))
  {
    hide HostPort, Value;
    assert SLASH !in digits;
    HostAndPort(host, digits);
    HostAlone(host);
    var full := host + [COLON] + digits;
    CutAtSlash(full, tail);
    CutAtSlash(host, tail);
    NoSchemeIn(full, tail, |host|);
    NoSchemeIn(host, tail, |host|);
    RestWithoutScheme(full + tail);
    RestWithoutScheme(host + tail);
  }

  lemma StartsWithScheme(s: seq<Byte>)
    ensures [0x3A, 0x2F, 0x2F] <= s ==> |s| >= 3 && s[0] == 0x3A && s[1] == 0x2F
  {
  }

  /** A single colon that no slash follows makes no scheme. */
  lemma NoSchemeIn(authority: seq<Byte>, tail: seq<Byte>, at: nat)
    requires forall j :: 0 <= j < |authority| && j != at ==> authority[j] != COLON
    requires at < |authority| ==> at + 1 < |authority| && authority[at + 1] != SLASH
    requires forall j :: 0 <= j <= |tail| ==> !([0x3A, 0x2F, 0x2F] <= tail[j..])
    ensures forall j :: 0 <= j <= |authority + tail| ==> !([0x3A, 0x2F, 0x2F] <= (authority + tail)[j..])
  {
    var s, n := authority + tail, |authority|;
    forall j | 0 <= j <= |s| ensures !([0x3A, 0x2F, 0x2F] <= s[j..]) {
      if j >= n {
        assert s[j..] == tail[j - n..];
      } else {
        StartsWithScheme(s[j..]);
      }
    }
  }

  lemma PortFits(authority: seq<Byte>)
    ensures HostPort(authority).Some? ==> HostPort(authority).value.1 < 0x1_0000
  {
  }

  /** A host is found exactly when the authority is not empty; it never has a slash. */
  lemma HostIsFound(url: seq<Byte>)
    ensures SplitHostPort(url).Some? <==> Authority(url) != []
    ensures SplitHostPort(url).Some? ==>
              SplitHostPort(url).value.0 != [] && SplitHostPort(url).value.1 < 0x1_0000
              && SLASH !in SplitHostPort(url).value.0
  {
    FirstFound(Rest(url), SLASH);
    var authority := Authority(url);
    assert SLASH !in authority;
    HostOf(authority);
    PortFits(authority);
  }

  /** The digits of a port: a plus sign in front is dropped. */
  function Unsigned(s: seq<Byte>): seq<Byte> {
    if s != [] && s[0] == PLUS then s[1..] else s
  }

  lemma {:induction false} DigitsFrom(done: seq<Byte>, s: seq<Byte>)
    requires (forall i :: 0 <= i < |done| ==> IsDigit(done[i])) && 0 <= Value(done) < 0x1_0000
    ensures Digits(s, Value(done)).Some? <==> (forall i :: 0 <= i < |s| ==> IsDigit(s[i])) && Value(done + s) < 0x1_0000
    ensures Digits(s, Value(done)).Some? ==> Digits(s, Value(done)).value == Value(done + s)
    decreases |s|
  {
    if s == [] {
      assert done + s == done;
    } else if IsDigit(s[0]) {
      var more := done + [s[0]];
      assert more[..|done|] == done;
      assert more + s[1..] == done + s;
      if Value(more) < 0x1_0000 {
        DigitsFrom(more, s[1..]);
        assert forall i :: 1 <= i < |s| ==> s[1..][i - 1] == s[i];
      } else if forall i :: 0 <= i < |s| ==> IsDigit(s[i]) {
        PrefixIsNoLarger(done + s, |more|);
        assert (done + s)[..|more|] == more;
      }
    }
  }

  /** A port is read exactly from a decimal number below 2^16, and as that number. */
  lemma PortIsNumber(s: seq<Byte>)
    ensures ParsePort(s).Some? <==> IsNumeral(Unsigned(s)) && Value(Unsigned(s)) < 0x1_0000
    ensures ParsePort(s).Some? ==> ParsePort(s).value == Value(Unsigned(s))
  {
    DigitsFrom([], Unsigned(s));
    assert [] + Unsigned(s) == Unsigned(s);
  }

  /** Where the authority is cut: host and port are what stands before and behind its first
      colon, and a port that is no number below 2^16 is 443 - except that an authority which
      starts with a colon, or has none, is taken for the host whole. */
  lemma HostOf(authority: seq<Byte>)
    ensures HostPort(authority).Some? ==>
              var (host, port) := HostPort(authority).value;
              host != [] && host <= authority
              && (COLON in host <==> authority[0] == COLON)
              && (authority[0] == COLON || COLON !in authority ==> host == authority && port == DEFAULT_PORT)
              && (authority[0] != COLON && COLON in authority ==>
                    |host| < |authority| && authority[|host|] == COLON
                    && var digits := Unsigned(authority[|host| + 1..]);
                       port == if IsNumeral(digits) && Value(digits) < 0x1_0000 then Value(digits) else DEFAULT_PORT)
  {
    hide ParsePort, Unsigned, Value;
    var colon := Find(authority, [COLON]);
    FirstFound(authority, COLON);
    if authority != [] {
      assert authority[..1] == [authority[0]];
      assert authority[0..] == authority;
      if 0 < colon < |authority| {
        PortIsNumber(authority[colon + 1..]);
      }
    }
  }

  // --- The protocol ------------------------------------------------------------------------

  datatype Request =
    | ReadUrl
    | ReadToken
    | Connect(host: seq<Byte>, port: nat)
    | Send(token: seq<Byte>)
    | Drain
    | Close
    | Sleep

  datatype Drained = KeepAlive | Ended | Broken

  /** What the environment answers: a stored text, success, the fate of a response; and the
      milliseconds it took beyond what was asked for. */
  datatype Answer = Answer(text: seq<Byte>, ok: bool, drained: Drained, delay: nat)

  datatype Event = Event(request: Request, answer: Answer, from: nat, to: nat)

  /** Where the two loops stand. `Checking` to `Pausing` hold a connection and the two
      snapshots it was opened with; the others hold none. */
  datatype Phase =
    | Top
    | Provisioned(url: seq<Byte>)
    | Dialing(host: seq<Byte>, port: nat, url: seq<Byte>, token: seq<Byte>)
    | Checking(url: seq<Byte>, token: seq<Byte>)
    | CheckingToken(url: seq<Byte>, token: seq<Byte>)
    | Sending(url: seq<Byte>, token: seq<Byte>)
    | Draining(url: seq<Byte>, token: seq<Byte>)
    | Pausing(url: seq<Byte>, token: seq<Byte>)
    | Closing
    | Resting

  /** The request each phase makes. */
  function Wants(p: Phase): Request {
    match p
    case Top => ReadUrl
    case Provisioned(_) => ReadToken
    case Dialing(host, port, _, _) => Connect(host, port)
    case Checking(_, _) => ReadUrl
    case CheckingToken(_, _) => ReadToken
    case Sending(_, token) => Send(token)
    case Draining(_, _) => Drain
    case Pausing(_, _) => Sleep
    case Closing => Close
    case Resting => Sleep
  }

  /** Where the answer leads. */
  function Then(p: Phase, a: Answer): Phase {
    match p
    case Top => if a.text == [] then Resting else Provisioned(a.text)
    case Provisioned(url) => if a.text == [] then Resting else Dial(url, a.text)
    case Dialing(_, _, url, token) => if a.ok then Checking(url, token) else Resting
    case Checking(url, token) => if a.text == url then CheckingToken(url, token) else Closing
    case CheckingToken(url, token) => if a.text == token then Sending(url, token) else Closing
    case Sending(url, token) => if a.ok then Draining(url, token) else Resting
    case Draining(url, token) =>
      (match a.drained
       case KeepAlive => Pausing(url, token)
       case Ended => Closing
       case Broken => Resting)
    case Pausing(url, token) => Checking(url, token)
    case Closing => Resting
    case Resting => Top
  }

  function Dial(url: seq<Byte>, token: seq<Byte>): Phase {
    match SplitHostPort(url)
    case Some((host, port)) => Dialing(host, port, url, token)
    case None => Resting
  }

  /** The phase after the first n answers. */
  function After(trace: seq<Event>, n: nat): Phase
    requires n <= |trace|
  {
    if n == 0 then Top else Then(After(trace, n - 1), trace[n - 1].answer)
  }

  /** When the first n requests are over. */
  function Now(trace: seq<Event>, n: nat): nat
    requires n <= |trace|
  {
    if n == 0 then 0 else trace[n - 1].to
  }

  /** Request i is the one its phase makes; it starts when the one before it is over, and a
      timer is never early. */
  predicate LegalAt(trace: seq<Event>, i: nat)
    requires i < |trace|
  {
    && trace[i].request == Wants(After(trace, i))
    && trace[i].from == Now(trace, i)
    && trace[i].to == trace[i].from + trace[i].answer.delay
                      + (if trace[i].request.Sleep? then PERIOD else 0)
  }

  predicate Legal(trace: seq<Event>) {
    forall i :: 0 <= i < |trace| ==> LegalAt(trace, i)
  }

  // --- What follows what -------------------------------------------------------------------

  /** Outside the two reads the last request and its answer alone decide the next one. */
  lemma NextRequest(trace: seq<Event>, n: nat)
    requires Legal(trace) && n < |trace|
    ensures n == 0 ==> trace[0].request == ReadUrl && trace[0].from == 0
    ensures n > 0 ==>
              var (last, answer, next) := (trace[n - 1].request, trace[n - 1].answer, trace[n].request);
              && trace[n].from == trace[n - 1].to
              && (last == Sleep ==> next == ReadUrl)
              && (last.Connect? ==> next == if answer.ok then ReadUrl else Sleep)
              && (last.Send? ==> next == if answer.ok then Drain else Sleep)
              && (last == Drain ==> next == if answer.drained == Ended then Close else Sleep)
              && (last == Close ==> next == Sleep)
    ensures trace[n].to == trace[n].from + trace[n].answer.delay + if trace[n].request == Sleep then 5000 else 0
  {
    hide SplitHostPort;
    assert LegalAt(trace, n);
    if n > 0 {
      assert LegalAt(trace, n - 1);
    }
  }

  // --- Strict alternation ------------------------------------------------------------------

  /** A successful send is followed by the drain of its response, and every drain follows one. */
  lemma SendsAndDrainsAlternate(trace: seq<Event>, i: nat)
    requires Legal(trace) && i < |trace|
    ensures trace[i].request.Drain? ==> i >= 1 && trace[i - 1].request.Send? && trace[i - 1].answer.ok
    ensures trace[i].request.Send? && trace[i].answer.ok && i + 1 < |trace| ==> trace[i + 1].request.Drain?
  {
    assert LegalAt(trace, i);
    assert i > 0 ==> LegalAt(trace, i - 1);
    assert i + 1 < |trace| ==> LegalAt(trace, i + 1);
  }

  // --- What a send rests on ----------------------------------------------------------------

  /** The event neither opens, ends nor spoils a connection. */
  predicate KeepsOpen(e: Event) {
    match e.request
    case ReadUrl => true
    case ReadToken => true
    case Sleep => true
    case Send(_) => e.answer.ok
    case Drain => e.answer.drained.KeepAlive?
    case Connect(_, _) => false
    case Close => false
  }

  /** Request k opened a connection to the host that `url` names, right after `url` and `token`
      were read, and nothing before request n has ended or spoiled it. */
  predicate OpenedAt(trace: seq<Event>, n: nat, k: nat, url: seq<Byte>, token: seq<Byte>)
    requires n <= |trace|
  {
    && 2 <= k < n
    && trace[k].request.Connect? && trace[k].answer.ok
    && SplitHostPort(url) == Some((trace[k].request.host, trace[k].request.port))
    && trace[k - 2].request.ReadUrl? && trace[k - 2].answer.text == url && url != []
    && trace[k - 1].request.ReadToken? && trace[k - 1].answer.text == token && token != []
    && (forall j :: k < j < n ==> KeepsOpen(trace[j]))
  }

  predicate InSession(p: Phase) {
    p.Checking? || p.CheckingToken? || p.Sending? || p.Draining? || p.Pausing?
  }

  lemma DialsWhatWasRead(trace: seq<Event>, n: nat)
    requires Legal(trace) && n <= |trace| && After(trace, n).Dialing?
    ensures var p := After(trace, n);
            && SplitHostPort(p.url) == Some((p.host, p.port))
            && n >= 2 && trace[n - 2].request.ReadUrl? && trace[n - 2].answer.text == p.url && p.url != []
            && trace[n - 1].request.ReadToken? && trace[n - 1].answer.text == p.token && p.token != []
  {
    hide SplitHostPort;
    assert LegalAt(trace, n - 1) && LegalAt(trace, n - 2);
  }

  lemma {:induction false} SessionIsOpen(trace: seq<Event>, n: nat) returns (k: nat)
    requires Legal(trace) && n <= |trace| && InSession(After(trace, n))
    ensures OpenedAt(trace, n, k, After(trace, n).url, After(trace, n).token)
  {
    hide SplitHostPort;
    assert LegalAt(trace, n - 1);
    if After(trace, n - 1).Dialing? {
      DialsWhatWasRead(trace, n - 1);
      k := n - 1;
    } else {
      k := SessionIsOpen(trace, n - 1);
    }
  }

  /** Every heartbeat goes out on a connection that is still usable, carries the token it was
      opened with, and comes right after the stored ctrl_url and token were read again and
      found to be the two the connection was opened with. */
  lemma EverySendIsChecked(trace: seq<Event>, i: nat) returns (k: nat)
    requires Legal(trace) && i < |trace| && trace[i].request.Send?
    ensures k + 2 < i
    ensures trace[i - 2].request.ReadUrl? && trace[i - 1].request.ReadToken?
    ensures trace[i].request.token == trace[i - 1].answer.text
    ensures OpenedAt(trace, i, k, trace[i - 2].answer.text, trace[i - 1].answer.text)
  {
    hide SplitHostPort;
    assert LegalAt(trace, i) && LegalAt(trace, i - 1) && LegalAt(trace, i - 2);
    k := SessionIsOpen(trace, i);
  }

  /** Behind an open connection stands the session it was opened for, or its end. */
  predicate Holds(p: Phase, last: Event, url: seq<Byte>, token: seq<Byte>) {
    if InSession(p) then p.url == url && p.token == token
    else
      p.Closing? && ((last.request.ReadUrl? && last.answer.text != url)
                     || (last.request.ReadToken? && last.answer.text != token))
  }

  lemma {:induction false} OpenIsSession(trace: seq<Event>, n: nat, k: nat, url: seq<Byte>, token: seq<Byte>)
    requires Legal(trace) && n <= |trace| && OpenedAt(trace, n, k, url, token)
    ensures Holds(After(trace, n), trace[n - 1], url, token)
    ensures n < |trace| && After(trace, n).Closing? ==> trace[n].request.Close?
  {
    hide SplitHostPort;
    assert LegalAt(trace, n - 1);
    if n == k + 1 {
      DialsWhatWasRead(trace, k);
    } else {
      OpenIsSession(trace, n - 1, k, url, token);
    }
    if n < |trace| {
      assert LegalAt(trace, n);
    }
  }

  /** While a connection is open it is kept: the two reads decide whether to go on with it or to
      close it, and nothing else is dialled. */
  lemma NextInSession(trace: seq<Event>, n: nat, k: nat, url: seq<Byte>, token: seq<Byte>)
    requires Legal(trace) && n < |trace| && OpenedAt(trace, n, k, url, token)
    ensures var (last, text, next) := (trace[n - 1].request, trace[n - 1].answer.text, trace[n].request);
            && !next.Connect?
            && (last == ReadUrl ==> next == if text == url then ReadToken else Close)
            && (last == ReadToken ==> next == if text == token then Send(token) else Close)
  {
    hide SplitHostPort;
    OpenIsSession(trace, n, k, url, token);
    assert LegalAt(trace, n) && LegalAt(trace, n - 1);
    if n > k + 1 {
      OpenIsSession(trace, n - 1, k, url, token);
    }
  }

  /** Without one the client stays quiet for a period unless it finds a ctrl_url that names a host
      and a token; then it dials that host. */
  lemma NextOutside(trace: seq<Event>, n: nat)
    requires Legal(trace) && 0 < n < |trace|
    requires forall k: nat, url, token :: !OpenedAt(trace, n, k, url, token)
    ensures var (last, text, next) := (trace[n - 1].request, trace[n - 1].answer.text, trace[n].request);
            && (last == ReadUrl ==> next == if text == [] then Sleep else ReadToken)
            && (last == ReadToken ==>
                  n >= 2 && trace[n - 2].request == ReadUrl
                  && var target := SplitHostPort(trace[n - 2].answer.text);
                     next == if text == [] || target == None then Sleep else Connect(target.value.0, target.value.1))
  {
    hide SplitHostPort;
    assert LegalAt(trace, n) && LegalAt(trace, n - 1);
    assert n >= 2 ==> LegalAt(trace, n - 2);
    ReadsKeepOpen(trace, n);
  }

  lemma ReadsKeepOpen(trace: seq<Event>, n: nat)
    requires Legal(trace) && 0 < n <= |trace|
    ensures InSession(After(trace, n - 1)) && (trace[n - 1].request.ReadUrl? || trace[n - 1].request.ReadToken?) ==>
              exists k: nat, url, token :: OpenedAt(trace, n, k, url, token)
  {
    hide SplitHostPort;
    var p := After(trace, n - 1);
    if InSession(p) && (trace[n - 1].request.ReadUrl? || trace[n - 1].request.ReadToken?) {
      var k := SessionIsOpen(trace, n - 1);
      assert OpenedAt(trace, n, k, p.url, p.token);
    }
  }

  /** After a failed drain, or one that ended keep-alive, nothing is sent before a reconnect. */
  lemma NoSendAfterTheEnd(trace: seq<Event>, d: nat, i: nat)
    requires Legal(trace) && d < i < |trace|
    requires trace[d].request.Drain? && !trace[d].answer.drained.KeepAlive?
    requires trace[i].request.Send?
    ensures exists k :: d < k < i && trace[k].request.Connect? && trace[k].answer.ok
  {
    var k := EverySendIsChecked(trace, i);
    assert k >= d by {
      assert !KeepsOpen(trace[d]);
    }
  }

  // --- Pacing ------------------------------------------------------------------------------

  predicate SendsEndBy(trace: seq<Event>, n: nat, limit: int)
    requires n <= |trace|
  {
    forall i :: 0 <= i < n && trace[i].request.Send? ==> trace[i].to <= limit
  }

  /** Outside the stretch between a send and the next sleep, the last PERIOD was quiet. */
  predicate Rested(p: Phase) {
    !p.Draining? && !p.Pausing? && !p.Closing? && !p.Resting?
  }

  lemma {:induction false} SendsAreOver(trace: seq<Event>, n: nat)
    requires Legal(trace) && n <= |trace|
    ensures SendsEndBy(trace, n, Now(trace, n))
    ensures Rested(After(trace, n)) ==> SendsEndBy(trace, n, Now(trace, n) - PERIOD)
  {
    if n > 0 {
      SendsAreOver(trace, n - 1);
      assert LegalAt(trace, n - 1);
    }
  }

  /** From the end of one heartbeat to the start of any later one at least PERIOD passes, on
      one connection or across any number of reconnects. */
  lemma SendsArePaced(trace: seq<Event>, i: nat, j: nat)
    requires Legal(trace) && i < j < |trace| && trace[i].request.Send? && trace[j].request.Send?
    ensures trace[i].from <= trace[i].to && trace[i].to + 5000 <= trace[j].from
  {
    SendsAreOver(trace, j);
    SendsAreOver(trace, i + 1);
    assert LegalAt(trace, i) && LegalAt(trace, j);
  }

  /** Heartbeats among the first n requests that started from `start` to `end`. */
  function SendsWithin(trace: seq<Event>, n: nat, start: nat, end: nat): nat
    requires n <= |trace|
  {
    if n == 0 then 0
    else SendsWithin(trace, n - 1, start, end)
         + (if trace[n - 1].request.Send? && start <= trace[n - 1].from <= end then 1 else 0)
  }

  lemma {:induction false} LastSendWithin(trace: seq<Event>, n: nat, start: nat, end: nat) returns (i: nat)
    requires Legal(trace) && n <= |trace| && SendsWithin(trace, n, start, end) > 0
    ensures i < n && trace[i].request.Send? && trace[i].from <= end
    ensures start + (SendsWithin(trace, n, start, end) - 1) * PERIOD <= trace[i].from
  {
    var last := trace[n - 1];
    if last.request.Send? && start <= last.from <= end {
      i := n - 1;
      if SendsWithin(trace, n - 1, start, end) > 0 {
        var before := LastSendWithin(trace, n - 1, start, end);
        SendsArePaced(trace, before, i);
      }
    } else {
      i := LastSendWithin(trace, n - 1, start, end);
    }
  }

  /** A window of `length` milliseconds holds at most length / PERIOD + 1 heartbeats, wherever
      it starts and however often the client reconnected in it. */
  lemma WindowIsBounded(trace: seq<Event>, start: nat, length: nat)
    requires Legal(trace)
    ensures SendsWithin(trace, |trace|, start, start + length) <= length / 5000 + 1
  {
    if SendsWithin(trace, |trace|, start, start + length) > 0 {
      var i := LastSendWithin(trace, |trace|, start, start + length);
      assert (SendsWithin(trace, |trace|, start, start + length) - 1) * PERIOD <= length;
    }
  }

  // --- The loops ---------------------------------------------------------------------------

  const SILENCE := Answer([], false, Broken, 0)

  function Scripted(script: seq<Answer>, i: nat): Answer {
    if i < |script| then script[i] else SILENCE
  }

  /** The trace made so far follows the protocol, and was answered from the script. */
  ghost predicate Follows(script: seq<Answer>, trace: seq<Event>, p: Phase) {
    && After(trace, |trace|) == p && Legal(trace)
    && (forall i :: 0 <= i < |trace| ==> trace[i].answer == Scripted(script, i))
  }

  lemma {:induction false} AfterPrefix(trace: seq<Event>, e: Event, n: nat)
    requires n <= |trace|
    ensures After(trace + [e], n) == After(trace, n)
  {
    if n > 0 {
      AfterPrefix(trace, e, n - 1);
    }
  }

  lemma Extend(script: seq<Answer>, trace: seq<Event>, p: Phase, e: Event)
    requires Follows(script, trace, p) && e.answer == Scripted(script, |trace|)
    requires e.request == Wants(p) && e.from == Now(trace, |trace|)
    requires e.to == e.from + e.answer.delay + if e.request.Sleep? then PERIOD else 0
    ensures Follows(script, trace + [e], Then(p, e.answer))
  {
    hide Wants, Then;
    var t := trace + [e];
    AfterPrefix(trace, e, |trace|);
    forall i | 0 <= i < |t| ensures LegalAt(t, i) {
      AfterPrefix(trace, e, i);
      assert i < |trace| ==> LegalAt(trace, i);
    }
  }

  class Client {
    const script: seq<Answer>
    var pos: nat
    var now: nat
    ghost var trace: seq<Event>

    ghost predicate At(p: Phase)
      reads this
    {
      Follows(script, trace, p) && |trace| == pos && Now(trace, |trace|) == now
    }

    constructor (script: seq<Answer>)
      ensures this.script == script && At(Top) && pos == 0
    {
      this.script := script;
      pos, now, trace := 0, 0, [];
    }

    /** One request, answered by the next entry of the script. */
    method Do(r: Request, ghost p: Phase) returns (a: Answer)
      requires At(p)
      requires r == Wants(p)
      modifies `pos, `now, `trace
      ensures a == Scripted(script, old(pos)) && pos == old(pos) + 1
      ensures At(Then(p, a))
    {
      a := if pos < |script| then script[pos] else SILENCE;
      ghost var from := now;
      now := now + a.delay + if r.Sleep? then PERIOD else 0;
      Extend(script, trace, p, Event(r, a, from, now));
      trace := trace + [Event(r, a, from, now)];
      pos := pos + 1;
    }

    /** run_session: connect once, then check, send, drain and sleep until something ends it
        (or the script is used up). */
    method RunSession(host: seq<Byte>, port: nat, url: seq<Byte>, token: seq<Byte>) returns (ended: bool)
      requires At(Dialing(host, port, url, token))
      modifies `pos, `now, `trace
      ensures ended ==> At(Resting)
      ensures !ended ==> At(Checking(url, token)) && pos >= |script|
      ensures pos > old(pos)
    {
      hide At, Dial;
      var connected := Do(Connect(host, port), Dialing(host, port, url, token));
      if !connected.ok {
        return true;
      }
      while pos < |script|
        invariant At(Checking(url, token)) && pos > old(pos)
        decreases |script| - pos
      {
        ended := Beat(url, token);
        if ended {
          return true;
        }
      }
      return false;
    }

    /** One turn of its loop. */
    method Beat(url: seq<Byte>, token: seq<Byte>) returns (ended: bool)
      requires At(Checking(url, token))
      modifies `pos, `now, `trace
      ensures At(if ended then Resting else Checking(url, token))
      ensures pos > old(pos)
    {
      hide At, Dial;
      var u := Do(ReadUrl, Checking(url, token));
      if u.text != url {
        var _ := Do(Close, Closing);
        return true;
      }
      var t := Do(ReadToken, CheckingToken(url, token));
      if t.text != token {
        var _ := Do(Close, Closing);
        return true;
      }
      var sent := Do(Send(token), Sending(url, token));
      if !sent.ok {
        return true;
      }
      var response := Do(Drain, Draining(url, token));
      if response.drained.Broken? {
        return true;
      }
      if response.drained.Ended? {
        var _ := Do(Close, Closing);
        return true;
      }
      var _ := Do(Sleep, Pausing(url, token));
      return false;
    }

    /** `run`, for as long as the script lasts: the whole script is consumed, and what was done
        with it is a legal trace. */
    method Run()
      requires At(Top)
      modifies `pos, `now, `trace
      ensures Legal(trace) && |script| <= |trace|
      ensures forall i :: 0 <= i < |script| && i < |trace| ==> trace[i].answer == script[i]
    {
      hide SplitHostPort, At;
      while pos < |script|
        invariant At(Top)
        decreases |script| - pos
      {
        var url := Do(ReadUrl, Top);
        if url.text != [] {
          var token := Do(ReadToken, Provisioned(url.text));
          if token.text != [] {
            var split := SplitHostPort(url.text);
            if split.Some? {
              var ended := RunSession(split.value.0, split.value.1, url.text, token.text);
              if !ended {
                TraceIsLegal(Checking(url.text, token.text));
                return;
              }
            }
          }
        }
        var _ := Do(Sleep, Resting);
      }
      TraceIsLegal(Top);
    }

    lemma TraceIsLegal(p: Phase)
      requires At(p) && pos >= |script|
      ensures Legal(trace) && |script| <= |trace|
      ensures forall i :: 0 <= i < |script| && i < |trace| ==> trace[i].answer == script[i]
    {
    }
  }

  /** The script fixes the requests as well as the answers: two legal traces answered alike are
      the same trace. So `Run` has no freedom left in what it asks for, and when. */
  lemma {:induction false} AnswersFixTheTrace(t: seq<Event>, u: seq<Event>, n: nat)
    requires Legal(t) && Legal(u) && n <= |t| && n <= |u|
    requires forall i :: 0 <= i < n ==> t[i].answer == u[i].answer
    ensures t[..n] == u[..n] && After(t, n) == After(u, n)
  {
    hide SplitHostPort;
    if n > 0 {
      AnswersFixTheTrace(t, u, n - 1);
      assert LegalAt(t, n - 1) && LegalAt(u, n - 1);
      assert n > 1 ==> t[n - 2] == t[..n - 1][n - 2] && u[n - 2] == u[..n - 1][n - 2];
      assert t[..n] == t[..n - 1] + [t[n - 1]] && u[..n] == u[..n - 1] + [u[n - 1]];
    }
  }
}
