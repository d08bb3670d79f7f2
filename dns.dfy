/**
  The DNS leak test: how many probes it runs, how the probe URL and its
  answer are formed, and how the received resolver addresses become the
  sorted, duplicate-free result.

  The worker threads, the channel and the HTTP requests are not modelled
  themselves. What they deliver is given to `DnsTest` as oracles: `recv(i)`
  is the `i`-th message the channel yields (`None` for a message that is
  never sent, because its worker panicked first), `parseIp` is
  `str::parse::<IpAddr>`, and `panicked` holds the indices of the workers
  whose `join` reports a panic.
 */
module Dns {
  import opened Wrappers
  import opened Net

  /** The leak-test site; `{}` is replaced by a random prefix. */
  const LEAK_DETECT_DNS_SITE: string := "https://{}.ipleak.net/dnsdetect/"
  /** The characters a prefix is drawn from. */
  const LEAK_DETECT_DNS_PREFIX_CHARSET: string := "abcdefghijklmnopqrstuvwxyz0123456789"
  /** The length of a prefix. */
  const LEAK_DETECT_DNS_PREFIX_LENGTH: nat := 40
  /** How many requests each worker thread makes. */
  const LEAK_DETECT_REQUESTS_PER_THREAD: u32 := 5

  /** `LeakError`, its payloads left abstract. */
  datatype LeakError =
    | RequestError
    | IoError
    | SerdeJsonError
    | JoiningThreadsError
    | RecvError
    | AddrParseError

  /**
    How `dns_test` ends: with the resolver addresses, with an error, or
    blocked for good in `rx.recv()`. `dns_test` keeps its own sender `tx`
    until it returns, so the channel never closes: a message that no worker
    sends is waited for forever instead of giving a receive error.
   */
  datatype DnsTestResult = Resolved(value: seq<IpAddr>) | Failed(error: LeakError) | Blocked

  // ---------------------------------------------------------------------------
  // Sizing the test

  /** `DnsTestConfig`. */
  datatype DnsTestConfig = DnsTestConfig(total: u32, requestsPerThread: u32, amountOfThreads: u32)

  /** The configuration by ceiling division: as many threads as five-request batches cover the request count. */
  function LeakTestConfig(amountOfRequests: u32): DnsTestConfig
  {
    var threads := (amountOfRequests + 4) / 5;
    DnsTestConfig(threads * 5, LEAK_DETECT_REQUESTS_PER_THREAD, threads)
  }

  /**
    The total is the smallest multiple of five at or above the request count
    (so a multiple of five is kept unchanged), it fits 32 bits, and the
    threads times the requests per thread make up exactly the total.
   */
  lemma LeakTestConfigRoundsUp(amountOfRequests: u32)
    ensures LeakTestConfig(amountOfRequests).requestsPerThread == 5
    ensures LeakTestConfig(amountOfRequests).total % 5 == 0
    ensures amountOfRequests <= LeakTestConfig(amountOfRequests).total < amountOfRequests + 5
    ensures amountOfRequests % 5 == 0 ==> LeakTestConfig(amountOfRequests).total == amountOfRequests
    ensures LeakTestConfig(amountOfRequests).amountOfThreads * LeakTestConfig(amountOfRequests).requestsPerThread
            == LeakTestConfig(amountOfRequests).total
  {
  }

  /**
    `get_dns_leak_test_config`: a request count that is not a multiple of
    five is raised by counting up in steps of five from zero. The counter
    never passes `u32::MAX`, which is itself a multiple of five.
   */
  method GetDnsLeakTestConfig(amountOfRequests: u32) returns (config: DnsTestConfig)
    ensures config == LeakTestConfig(amountOfRequests)
  {
    var requestsPerThread := LEAK_DETECT_REQUESTS_PER_THREAD;
    var amount := amountOfRequests;
    if amount % requestsPerThread != 0 {
      var t: u32 := 0;
      while t < amount
        invariant t % 5 == 0 && t <= amount as int + 4
      {
        assert t <= U32_MAX - 5;
        t := t + requestsPerThread;
      }
      amount := t;
    }
    var amountOfThreads := amount / requestsPerThread;
    config := DnsTestConfig(amount, requestsPerThread, amountOfThreads);
  }

  // ---------------------------------------------------------------------------
  // The probe

  /** The shape of a prefix: forty characters, each a lower-case ASCII letter or a digit. */
  predicate IsLeakPrefix(s: string)
  {
    |s| == LEAK_DETECT_DNS_PREFIX_LENGTH && forall i :: 0 <= i < |s| ==> IsDigit(s[i]) || 'a' <= s[i] <= 'z'
  }

  /** The position of a prefix character in the charset. */
  function CharsetIndex(c: char): (k: nat)
    requires IsDigit(c) || 'a' <= c <= 'z'
    ensures k < |LEAK_DETECT_DNS_PREFIX_CHARSET| && LEAK_DETECT_DNS_PREFIX_CHARSET[k] == c
  {
    if IsDigit(c) then 26 + (c as int - '0' as int) else c as int - 'a' as int
  }

  /**
    `generate_dns_leak_prefix`: `draw(i)` is the random choice for position
    `i`, reduced to an index into the charset.
   */
  function GenerateDnsLeakPrefix(draw: nat -> nat): (s: string)
    ensures IsLeakPrefix(s)
  {
    var charset := LEAK_DETECT_DNS_PREFIX_CHARSET;
    assert forall k :: 0 <= k < |charset| ==> IsDigit(charset[k]) || 'a' <= charset[k] <= 'z';
    seq(LEAK_DETECT_DNS_PREFIX_LENGTH, i requires 0 <= i => charset[draw(i) % |charset|])
  }

  /** Every string of the prefix shape is one the generator can produce. */
  lemma EveryPrefixGenerated(s: string)
    requires IsLeakPrefix(s)
    ensures GenerateDnsLeakPrefix((i: nat) => if i < |s| then CharsetIndex(s[i]) else 0) == s
  {
    var draw := (i: nat) => if i < |s| then CharsetIndex(s[i]) else 0;
    var p := GenerateDnsLeakPrefix(draw);
    assert |p| == |s|;
    forall i | 0 <= i < |s|
      ensures p[i] == s[i]
    {
      var k := CharsetIndex(s[i]);
      assert draw(i) == k;
      assert k % 36 == k;
      assert p[i] == LEAK_DETECT_DNS_PREFIX_CHARSET[k];
    }
  }

  /** `str::replace`: every non-overlapping occurrence of `from`, scanning left to right, becomes `to`. */
  function Replace(s: string, from: string, to: string): (r: string)
    requires |from| > 0
    ensures to == from ==> r == s
    decreases |s|
  {
    if |s| < |from| then s
    else if s[..|from|] == from then
      assert to == from ==> to + s[|from|..] == s;
      to + Replace(s[|from|..], from, to)
    else
      assert s == [s[0]] + s[1..];
      [s[0]] + Replace(s[1..], from, to)
  }

  /** A text without the first character of `from` is left as it is. */
  lemma {:induction false} ReplaceAbsent(s: string, from: string, to: string)
    requires |from| > 0 && from[0] !in s
    ensures Replace(s, from, to) == s
    decreases |s|
  {
    if |s| >= |from| {
      assert s[..|from|][0] == s[0];
      ReplaceAbsent(s[1..], from, to);
    }
  }

  /** A leading part without the first character of `from` passes through unchanged. */
  lemma {:induction false} ReplaceAfterPlain(a: string, rest: string, from: string, to: string)
    requires |from| > 0 && from[0] !in a
    ensures Replace(a + rest, from, to) == a + Replace(rest, from, to)
    decreases |a|
  {
    if a != [] {
      var s := a + rest;
      assert s[0] == a[0];
      if |s| >= |from| {
        assert s[..|from|][0] == a[0];
        assert s[1..] == a[1..] + rest;
        ReplaceAfterPlain(a[1..], rest, from, to);
      }
    } else {
      assert a + rest == rest;
    }
  }

  /** A text with one occurrence of `from`, and no other first character of it, gets `to` in its place. */
  lemma ReplaceOnce(head: string, from: string, tail: string, to: string)
    requires |from| > 0 && from[0] !in head && from[0] !in tail
    ensures Replace(head + (from + tail), from, to) == head + to + tail
  {
    ReplaceAfterPlain(head, from + tail, from, to);
    assert (from + tail)[..|from|] == from;
    assert (from + tail)[|from|..] == tail;
    ReplaceAbsent(tail, from, to);
  }

  /** The probe URL: the site with the prefix in place of `{}`, so the prefix is the first label of the host. */
  function RequestUrl(prefix: string): (url: string)
    ensures url == "https://" + prefix + ".ipleak.net/dnsdetect/"
  {
    RequestUrlShape(prefix);
    Replace(LEAK_DETECT_DNS_SITE, "{}", prefix)
  }

  /** The site text around its `{}` placeholder. */
  lemma SiteLayout()
    ensures LEAK_DETECT_DNS_SITE == "https://" + ("{}" + ".ipleak.net/dnsdetect/")
  {
    var whole := "https://" + ("{}" + ".ipleak.net/dnsdetect/");
    assert |whole| == |LEAK_DETECT_DNS_SITE|;
    forall k | 0 <= k < |whole|
      ensures whole[k] == LEAK_DETECT_DNS_SITE[k]
    {
    }
  }

  /** A prefix is placed as the first label of the leak-test host. */
  lemma RequestUrlShape(prefix: string)
    ensures Replace(LEAK_DETECT_DNS_SITE, "{}", prefix) == "https://" + prefix + ".ipleak.net/dnsdetect/"
  {
    var head, tail := "https://", ".ipleak.net/dnsdetect/";
    SiteLayout();
    assert '{' !in head && '{' !in tail;
    ReplaceOnce(head, "{}", tail, prefix);
  }

  /** `char::is_whitespace`: the Unicode `White_Space` characters. */
  predicate IsWhitespace(c: char)
  {
    || '\t' <= c <= '\r'
    || c == ' '
    || c == '\U{85}'
    || c == '\U{A0}'
    || c == '\U{1680}'
    || '\U{2000}' <= c <= '\U{200A}'
    || c == '\U{2028}'
    || c == '\U{2029}'
    || c == '\U{202F}'
    || c == '\U{205F}'
    || c == '\U{3000}'
  }

  /** The position of the first non-whitespace character at or after `i` (or the end). */
  function SkipWhitespace(s: string, i: nat): (j: nat)
    requires i <= |s|
    ensures i <= j <= |s|
    ensures forall k :: i <= k < j ==> IsWhitespace(s[k])
    ensures j < |s| ==> !IsWhitespace(s[j])
    decreases |s| - i
  {
    if i < |s| && IsWhitespace(s[i]) then SkipWhitespace(s, i + 1) else i
  }

  /** The end of `s[lo..j]` once its trailing whitespace is dropped. */
  function SkipTrailingWhitespace(s: string, lo: nat, j: nat): (e: nat)
    requires lo <= j <= |s|
    ensures lo <= e <= j
    ensures forall k :: e <= k < j ==> IsWhitespace(s[k])
    ensures lo < e ==> !IsWhitespace(s[e - 1])
    decreases j
  {
    if lo < j && IsWhitespace(s[j - 1]) then SkipTrailingWhitespace(s, lo, j - 1) else j
  }

  /**
    `str::trim`: the result is the slice of `s` that starts at its first
    non-whitespace character; everything cut off on either side is
    whitespace, and the result neither starts nor ends with whitespace.
   */
  function Trim(s: string): (r: string)
    ensures var i := SkipWhitespace(s, 0);
            && i + |r| <= |s| && r == s[i..i + |r|]
            && (forall k :: 0 <= k < i ==> IsWhitespace(s[k]))
            && (forall k :: i + |r| <= k < |s| ==> IsWhitespace(s[k]))
    ensures |r| > 0 ==> !IsWhitespace(r[0]) && !IsWhitespace(r[|r| - 1])
  {
    var i := SkipWhitespace(s, 0);
    var e := SkipTrailingWhitespace(s, i, |s|);
    s[i..e]
  }

  /** Trimming twice trims no more than trimming once. */
  lemma TrimIdempotent(s: string)
    ensures Trim(Trim(s)) == Trim(s)
  {
    var r := Trim(s);
    if |r| > 0 {
      assert SkipWhitespace(r, 0) == 0;
      assert SkipTrailingWhitespace(r, 0, |r|) == |r|;
    }
    assert r[0..|r|] == r;
  }

  /**
    `get_dns`: fetch the probe URL built from `prefix` and return the body
    without surrounding whitespace. `fetch` stands for the HTTP request.
   */
  function GetDns(prefix: string, fetch: string -> Result<string, LeakError>): (r: Result<string, LeakError>)
    ensures fetch(RequestUrl(prefix)).Err? ==> r == fetch(RequestUrl(prefix))
    ensures fetch(RequestUrl(prefix)).Ok? ==> r == Ok(Trim(fetch(RequestUrl(prefix)).value))
    ensures fetch(RequestUrl(prefix)).Ok? ==>
              r.Ok? && |r.value| <= |fetch(RequestUrl(prefix)).value| && Trim(r.value) == r.value
  {
    var body :- fetch(RequestUrl(prefix));
    TrimIdempotent(body);
    Ok(Trim(body))
  }

  // ---------------------------------------------------------------------------
  // Collecting, sorting and deduplicating the resolvers

  /**
    The first `n` messages of the channel, each parsed as an address; the
    first parse error in message order ends the collection, and a message
    that never comes blocks it.
   */
  function Receive(recv: nat -> Option<string>, parseIp: string -> Option<IpAddr>, n: nat)
    : (r: DnsTestResult)
    ensures r.Resolved? ==> |r.value| == n
    ensures r.Failed? ==> r.error == AddrParseError
  {
    if n == 0 then Resolved([])
    else match Receive(recv, parseIp, n - 1)
      case Resolved(ips) =>
        (match recv(n - 1)
         case None => Blocked
         case Some(text) =>
           match parseIp(text)
           case None => Failed(AddrParseError)
           case Some(ip) => Resolved(ips + [ip]))
      case other => other
  }

  /** A successful collection has one address per message, each the parsed message. */
  lemma {:induction false} ReceiveCollectsAll(recv: nat -> Option<string>, parseIp: string -> Option<IpAddr>, n: nat)
    requires Receive(recv, parseIp, n).Resolved?
    ensures |Receive(recv, parseIp, n).value| == n
    ensures forall i :: 0 <= i < n ==>
              recv(i).Some? && parseIp(recv(i).value) == Some(Receive(recv, parseIp, n).value[i])
  {
    if n > 0 {
      ReceiveCollectsAll(recv, parseIp, n - 1);
    }
  }

  /** Once the collection has failed or blocked, later messages change nothing. */
  lemma {:induction false} ReceiveErrorPersists(recv: nat -> Option<string>, parseIp: string -> Option<IpAddr>,
                                                k: nat, n: nat)
    requires k <= n && !Receive(recv, parseIp, k).Resolved?
    ensures Receive(recv, parseIp, n) == Receive(recv, parseIp, k)
    decreases n - k
  {
    if k < n {
      ReceiveErrorPersists(recv, parseIp, k, n - 1);
    }
  }

  /**
    The collection blocks exactly when some message `i` never comes while
    every message before it arrived and parsed.
   */
  lemma {:induction false} ReceiveBlocks(recv: nat -> Option<string>, parseIp: string -> Option<IpAddr>, n: nat)
    ensures Receive(recv, parseIp, n).Blocked? <==>
              exists i :: 0 <= i < n && recv(i).None? && ArrivedAndParsed(recv, parseIp, i)
  {
    if n > 0 {
      ReceiveBlocks(recv, parseIp, n - 1);
      ReceiveResolvedIff(recv, parseIp, n - 1);
      if Receive(recv, parseIp, n).Blocked? && !Receive(recv, parseIp, n - 1).Blocked? {
        assert recv(n - 1).None? && ArrivedAndParsed(recv, parseIp, n - 1);
      }
      if !Receive(recv, parseIp, n).Blocked? {
        forall i | 0 <= i < n && recv(i).None?
          ensures !ArrivedAndParsed(recv, parseIp, i)
        {
          if i == n - 1 {
            assert !Receive(recv, parseIp, n - 1).Resolved?;
          }
        }
      }
    }
  }

  /** Messages `0..n` all arrived and parsed. */
  predicate ArrivedAndParsed(recv: nat -> Option<string>, parseIp: string -> Option<IpAddr>, n: nat)
  {
    forall j :: 0 <= j < n ==> recv(j).Some? && parseIp(recv(j).value).Some?
  }

  /** The collection succeeds exactly when the first `n` messages all arrive and parse. */
  lemma {:induction false} ReceiveResolvedIff(recv: nat -> Option<string>, parseIp: string -> Option<IpAddr>, n: nat)
    ensures Receive(recv, parseIp, n).Resolved? <==> ArrivedAndParsed(recv, parseIp, n)
  {
    if n > 0 {
      ReceiveResolvedIff(recv, parseIp, n - 1);
    }
  }

  /** Non-decreasing in the address order (`Vec::sort`). */
  predicate Sorted(s: seq<IpAddr>)
  {
    forall i, j :: 0 <= i < j < |s| ==> IpLe(s[i], s[j])
  }

  /** Strictly increasing in the address order, hence free of duplicates. */
  predicate StrictlyIncreasing(s: seq<IpAddr>)
  {
    forall i, j :: 0 <= i < j < |s| ==> IpLt(s[i], s[j])
  }

  /** Insert `x` into a sorted list, keeping it sorted. */
  function Insert(s: seq<IpAddr>, x: IpAddr): (r: seq<IpAddr>)
    requires Sorted(s)
    ensures Sorted(r) && multiset(r) == multiset(s) + multiset{x}
  {
    if s == [] then [x]
    else if IpLe(x, s[0]) then [x] + s
    else
      var rest := Insert(s[1..], x);
      assert s == [s[0]] + s[1..];
      forall k | 0 <= k < |rest|
        ensures IpLe(s[0], rest[k])
      {
        assert rest[k] in multiset(rest);
        if rest[k] != x {
          assert rest[k] in s[1..];
        }
      }
      [s[0]] + rest
  }

  /** `Vec::sort` on the collected addresses. */
  method SortAddresses(ips: seq<IpAddr>) returns (sorted: seq<IpAddr>)
    ensures Sorted(sorted) && multiset(sorted) == multiset(ips)
  {
    sorted := [];
    var i := 0;
    while i < |ips|
      invariant 0 <= i <= |ips|
      invariant Sorted(sorted) && multiset(sorted) == multiset(ips[..i])
    {
      assert ips[..i + 1] == ips[..i] + [ips[i]];
      sorted := Insert(sorted, ips[i]);
      i := i + 1;
    }
    assert ips[..i] == ips;
  }

  /** `Vec::dedup`: drop every element equal to the one kept before it. */
  function Dedup(s: seq<IpAddr>): (r: seq<IpAddr>)
    ensures |r| <= |s|
    ensures forall x :: x in r <==> x in s
    ensures |s| > 0 ==> |r| > 0 && r[|r| - 1] == s[|s| - 1]
    ensures NoAdjacentRepeats(r)
    ensures NoAdjacentRepeats(s) ==> r == s
  {
    if |s| <= 1 then s
    else
      var init := s[..|s| - 1];
      assert forall x :: x in s <==> x in init || x == s[|s| - 1];
      assert NoAdjacentRepeats(s) ==> NoAdjacentRepeats(init);
      if s[|s| - 1] == s[|s| - 2] then Dedup(init)
      else
        assert init + [s[|s| - 1]] == s;
        Dedup(init) + [s[|s| - 1]]
  }

  /** No element equals the one right before it. */
  predicate NoAdjacentRepeats(s: seq<IpAddr>)
  {
    forall i :: 0 < i < |s| ==> s[i - 1] != s[i]
  }

  /** Collapsing one adjacent repeat first does not change the result: only adjacent repeats are removed. */
  lemma {:induction false} DedupCollapse(a: seq<IpAddr>, x: IpAddr, b: seq<IpAddr>)
    ensures Dedup(a + [x, x] + b) == Dedup(a + [x] + b)
    decreases |b|
  {
    var s := a + [x, x] + b;
    var t := a + [x] + b;
    if b == [] {
      assert s[..|s| - 1] == t;
      DedupStep(s);
    } else {
      var b' := b[..|b| - 1];
      assert s[..|s| - 1] == a + [x, x] + b';
      assert t[..|t| - 1] == a + [x] + b';
      assert s[|s| - 1] == t[|t| - 1] && s[|s| - 2] == t[|t| - 2];
      DedupCollapse(a, x, b');
      DedupStep(s);
      DedupStep(t);
    }
  }

  /** One step of `Dedup`: the last element is kept unless it repeats the one before it. */
  lemma DedupStep(s: seq<IpAddr>)
    requires |s| > 1
    ensures Dedup(s) == if s[|s| - 1] == s[|s| - 2] then Dedup(s[..|s| - 1]) else Dedup(s[..|s| - 1]) + [s[|s| - 1]]
  {
  }

  /** Deduplicating a sorted list leaves it strictly increasing. */
  lemma {:induction false} DedupSortedStrictlyIncreasing(s: seq<IpAddr>)
    requires Sorted(s)
    ensures StrictlyIncreasing(Dedup(s))
  {
    if |s| > 1 {
      var init := s[..|s| - 1];
      assert Sorted(init);
      DedupSortedStrictlyIncreasing(init);
      var d := Dedup(init);
      var last := s[|s| - 1];
      if last != s[|s| - 2] {
        assert IpLe(s[|s| - 2], last);
        if OrderKey(s[|s| - 2]) == OrderKey(last) {
          OrderKeyInjective(s[|s| - 2], last);
        }
        assert d[|d| - 1] == s[|s| - 2];
        forall i | 0 <= i < |d|
          ensures IpLt(d[i], last)
        {
          assert d[i] in init;
          if i < |d| - 1 {
            assert IpLt(d[i], d[|d| - 1]);
          }
        }
      }
    }
  }

  lemma HeadIn(s: seq<IpAddr>)
    ensures s != [] ==> s[0] in s
  {
  }

  /**
    A strictly increasing list is determined by its elements: the result of
    `dns_test` is the one sorted, duplicate-free list of the received addresses.
   */
  lemma {:induction false} StrictlyIncreasingUnique(s: seq<IpAddr>, t: seq<IpAddr>)
    requires StrictlyIncreasing(s) && StrictlyIncreasing(t)
    requires forall x :: x in s <==> x in t
    ensures s == t
  {
    if s != [] && t != [] {
      assert s[0] in t && t[0] in s;
      var i :| 0 <= i < |t| && t[i] == s[0];
      var j :| 0 <= j < |s| && s[j] == t[0];
      if i > 0 {
        assert false;
      }
      forall x
        ensures x in s[1..] <==> x in t[1..]
      {
        if x in s[1..] {
          var a :| 0 <= a < |s| - 1 && s[1..][a] == x;
          assert IpLt(s[0], s[a + 1]);
          assert x in t;
          var b :| 0 <= b < |t| && t[b] == x;
          assert b != 0;
          assert t[1..][b - 1] == x;
        }
        if x in t[1..] {
          var a :| 0 <= a < |t| - 1 && t[1..][a] == x;
          assert IpLt(t[0], t[a + 1]);
          assert x in s;
          var b :| 0 <= b < |s| && s[b] == x;
          assert b != 0;
          assert s[1..][b - 1] == x;
        }
      }
      StrictlyIncreasingUnique(s[1..], t[1..]);
      assert s == [s[0]] + s[1..] && t == [t[0]] + t[1..];
    } else if s != [] {
      HeadIn(s);
      assert false;
    } else if t != [] {
      HeadIn(t);
      assert false;
    }
  }

  /** The receive loop of `dns_test`: exactly `total` messages, or the first error. */
  method ReceiveAddresses(total: nat, recv: nat -> Option<string>, parseIp: string -> Option<IpAddr>)
    returns (r: DnsTestResult)
    ensures r == Receive(recv, parseIp, total)
  {
    var ips: seq<IpAddr> := [];
    var i: nat := 0;
    while i < total
      invariant i <= total
      invariant Receive(recv, parseIp, i) == Resolved(ips)
    {
      var message := recv(i);
      if message.None? {
        // No worker will send it, and `tx` keeps the channel open
        ReceiveErrorPersists(recv, parseIp, i + 1, total);
        return Blocked;
      }
      var ip := parseIp(message.value);
      if ip.None? {
        ReceiveErrorPersists(recv, parseIp, i + 1, total);
        return Failed(AddrParseError);
      }
      ips := ips + [ip.value];
      i := i + 1;
    }
    r := Resolved(ips);
  }

  /** The join loop of `dns_test`: the first worker that panicked gives `JoiningThreadsError`. */
  method JoinWorkers(threads: nat, panicked: set<nat>) returns (r: Outcome<LeakError>)
    ensures r.Fail? <==> exists t :: 0 <= t < threads && t in panicked
    ensures r.Fail? ==> r.error == JoiningThreadsError
  {
    var t: nat := 0;
    while t < threads
      invariant t <= threads
      invariant forall u :: 0 <= u < t ==> u !in panicked
    {
      if t in panicked {
        return Fail(JoiningThreadsError);
      }
      t := t + 1;
    }
    r := Pass;
  }

  /** `ips.sort(); ips.dedup();`: strictly increasing, the same addresses, no more of them. */
  method SortAndDedup(ips: seq<IpAddr>) returns (r: seq<IpAddr>)
    ensures StrictlyIncreasing(r)
    ensures forall x :: x in r <==> x in ips
    ensures |r| <= |ips|
  {
    var sorted := SortAddresses(ips);
    assert forall x :: x in sorted <==> x in multiset(ips);
    assert |sorted| == |multiset(sorted)| == |ips|;
    DedupSortedStrictlyIncreasing(sorted);
    r := Dedup(sorted);
  }

  /**
    The receive/join/sort/dedup part of `dns_test`. It takes exactly `total`
    messages; the first parse error is returned and no list is, and a
    message that never comes leaves it blocked.
    A worker whose `join` reports a panic gives `JoiningThreadsError`.
    Otherwise the result is strictly increasing, holds exactly the received
    addresses and is no longer than `total`.
   */
  method DnsTest(amountOfRequests: u32, recv: nat -> Option<string>, parseIp: string -> Option<IpAddr>,
                 panicked: set<nat>)
    returns (r: DnsTestResult)
    ensures var config := LeakTestConfig(amountOfRequests);
            var received := Receive(recv, parseIp, config.total);
            && (!received.Resolved? ==> r == received)
            && (received.Resolved? && (exists t :: 0 <= t < config.amountOfThreads && t in panicked) ==>
                  r == Failed(JoiningThreadsError))
            && (received.Resolved? && (forall t :: 0 <= t < config.amountOfThreads ==> t !in panicked) ==>
                  && r.Resolved?
                  && StrictlyIncreasing(r.value)
                  && (forall x :: x in r.value <==> x in received.value)
                  && |r.value| <= config.total)
  {
    var config := GetDnsLeakTestConfig(amountOfRequests);
    // Save the collected ip addresses
    var received := ReceiveAddresses(config.total, recv, parseIp);
    if !received.Resolved? {
      return received;
    }
    var ips := received.value;
    ReceiveCollectsAll(recv, parseIp, config.total);
    // Wait for the threads to finish
    var joined := JoinWorkers(config.amountOfThreads, panicked);
    if joined.Fail? {
      return Failed(joined.error);
    }
    // Sort and deduplicate the ip addresses
    var unique := SortAndDedup(ips);
    r := Resolved(unique);
  }
}
