/** What host normalisation does with a port: the forms of a host with a port, written out. */
module HostPorts {
  import opened GoStrings
  import opened Wrappers
  import opened DomainNames

  predicate Plain(s: string) { ':' !in s && '[' !in s && ']' !in s }

  /** `host:port`, or `[host]:port` for a host that may itself contain colons. */
  predicate WithPort(s: string, host: string, port: string) {
    Plain(port) && ((s == host + ":" + port && Plain(host)) || (s == "[" + host + "]:" + port && '[' !in host && ']' !in host))
  }

  lemma {:induction false} LastIndexIsLast(s: string, c: char)
    ensures var r := LastIndex(s, c); (r >= 0 ==> s[r] == c && c !in s[r + 1..]) && (r < 0 <==> c !in s)
  {
    if s != "" {
      LastIndexIsLast(s[..|s| - 1], c);
      var r := LastIndex(s, c);
      assert s == s[..|s| - 1] + [s[|s| - 1]];
      if 0 <= r < |s| - 1 { assert s[r + 1..] == s[..|s| - 1][r + 1..] + [s[|s| - 1]]; }
    }
  }

  lemma LastIndexAt(a: string, c: char, b: string)
    requires c !in b
    ensures LastIndex(a + [c] + b, c) == |a|
  {
    var s := a + [c] + b;
    LastIndexIsLast(s, c);
    hide LastIndex;
    assert s[|a|] == c;
    var r := LastIndex(s, c);
    forall k | r < k < |s| ensures s[k] != c { assert s[k] == s[r + 1..][k - r - 1]; }
    forall k | |a| < k < |s| ensures s[k] != c { assert s[k] == b[k - |a| - 1]; }
  }

  lemma FirstIndexAt(a: string, c: char, b: string)
    requires c !in a
    ensures FirstIndex(a + [c] + b, c) == |a|
  {
    var s := a + [c] + b;
    FirstIndexIsFirst(s, c);
    assert s[|a|] == c;
    var r := FirstIndex(s, c);
    forall k | 0 <= k < r ensures s[k] != c { assert s[k] == s[..r][k]; }
    assert forall k :: 0 <= k < |a| ==> s[k] in a;
  }

  lemma HasCharIff(s: string, c: char)
    ensures HasChar(s, c) <==> c in s
  {
    FirstIndexIsFirst(s, c);
  }

  lemma PlainSplits(host: string, port: string)
    requires Plain(host) && Plain(port)
    ensures SplitHostPort(host + ":" + port) == Some(host)
  {
    var s := host + ":" + port;
    LastIndexAt(host, ':', port);
    assert s[..|host|] == host && s[0] != '[';
    HasCharIff(host, ':');
    HasCharIff(s, '[');
    HasCharIff(s, ']');
  }

  lemma BracketedSplits(host: string, port: string)
    requires '[' !in host && ']' !in host && Plain(port)
    ensures SplitHostPort("[" + host + "]:" + port) == Some(host)
  {
    var s := "[" + host + "]:" + port;
    assert s == ("[" + host + "]") + ":" + port == ("[" + host) + "]" + (":" + port);
    LastIndexAt("[" + host + "]", ':', port);
    FirstIndexAt("[" + host, ']', ":" + port);
    assert s[1..] == host + "]:" + port && s[|host| + 2..] == ":" + port && s[1..|host| + 1] == host;
    HasCharIff(s[1..], '[');
    HasCharIff(s[|host| + 2..], ']');
  }

  lemma SplitIsWithPort(s: string)
    requires SplitHostPort(s).Some?
    ensures WithPort(s, SplitHostPort(s).value, s[LastIndex(s, ':') + 1..])
  {
    LastIndexIsLast(s, ':');
    if s[0] == '[' { BracketedIsWithPort(s); } else { PlainIsWithPort(s); }
  }

  lemma BracketedIsWithPort(s: string)
    requires SplitHostPort(s).Some? && s[0] == '['
    ensures WithPort(s, SplitHostPort(s).value, s[LastIndex(s, ':') + 1..])
  {
    hide FirstIndex, LastIndex, HasChar, WithPort;
    var end := FirstIndex(s, ']');
    LastIndexIsLast(s, ':');
    FirstIndexIsFirst(s, ']');
    HasCharIff(s[1..], '[');
    HasCharIff(s[end + 1..], ']');
    BracketParts(s, end);
  }

  lemma BracketParts(s: string, end: nat)
    requires 1 <= end < |s| - 1 && s[0] == '[' && s[end] == ']' && s[end + 1] == ':'
    requires '[' !in s[1..] && ']' !in s[..end] && ']' !in s[end + 1..] && ':' !in s[end + 2..]
    ensures WithPort(s, s[1..end], s[end + 2..])
  {
    var host, port := s[1..end], s[end + 2..];
    assert forall i :: 0 <= i < |host| ==> host[i] == s[1..][i] == s[..end][i + 1];
    assert forall i :: 0 <= i < |port| ==> port[i] == s[1..][end + 1 + i] == s[end + 1..][i + 1];
    assert s == "[" + host + "]:" + port;
  }

  lemma PlainIsWithPort(s: string)
    requires SplitHostPort(s).Some? && s[0] != '['
    ensures WithPort(s, SplitHostPort(s).value, s[LastIndex(s, ':') + 1..])
  {
    hide FirstIndex, LastIndex, HasChar, WithPort;
    var i := LastIndex(s, ':');
    LastIndexIsLast(s, ':');
    HasCharIff(s[..i], ':');
    HasCharIff(s, '[');
    HasCharIff(s, ']');
    PlainParts(s, i);
  }

  lemma PlainParts(s: string, i: nat)
    requires i < |s| && s[i] == ':' && ':' !in s[..i] && ':' !in s[i + 1..] && '[' !in s && ']' !in s
    ensures WithPort(s, s[..i], s[i + 1..])
  {
    assert s == s[..i] + ":" + s[i + 1..];
  }

  /** Splitting finds a host exactly in the two forms, and finds that host. */
  lemma SplitHostPortIff(s: string, host: string)
    ensures SplitHostPort(s) == Some(host) <==> exists port :: WithPort(s, host, port)
  {
    if SplitHostPort(s) == Some(host) { SplitIsWithPort(s); }
    if port :| WithPort(s, host, port) {
      if s == host + ":" + port && Plain(host) { PlainSplits(host, port); } else { BracketedSplits(host, port); }
    }
  }

  /** Host normalisation lowers and trims; what is left loses its port if it has one of the two forms, and is
      otherwise left as it is. */
  lemma NormalizeHostIs(input: string)
    ensures var t := TrimSpace(ToLower(input));
            && (forall host, port :: WithPort(t, host, port) ==> NormalizeHost(input) == host)
            && ((forall host, port :: !WithPort(t, host, port)) ==> NormalizeHost(input) == t)
  {
    var t := TrimSpace(ToLower(input));
    HasCharIff(t, ':');
    hide TrimSpace, ToLower, SplitHostPort, WithPort;
    forall host, port | WithPort(t, host, port) ensures NormalizeHost(input) == host {
      SplitHostPortIff(t, host);
      HasColon(t, host, port);
    }
    if SplitHostPort(t).Some? { SplitHostPortIff(t, SplitHostPort(t).value); }
  }

  lemma HasColon(s: string, host: string, port: string)
    requires WithPort(s, host, port)
    ensures ':' in s
  {
    if s == host + ":" + port { assert s[|host|] == ':'; } else { assert s[|host| + 2] == ':'; }
  }

  predicate IsDigits(s: string) { forall i :: 0 <= i < |s| ==> '0' <= s[i] <= '9' }

  lemma DigitsArePlain(port: string)
    requires IsDigits(port)
    ensures Plain(port) && Lowered(port) && forall i :: 0 <= i < |port| ==> !IsSpace(port[i])
  {
  }

  /** A lower-case host without blanks around it loses a numeric port. */
  lemma PortIsStripped(host: string, port: string)
    requires Lowered(host) && Trimmed(host) && Plain(host) && IsDigits(port)
    ensures NormalizeHost(host + ":" + port) == host
  {
    var s := host + ":" + port;
    DigitsArePlain(port);
    assert Lowered(s) && Trimmed(s);
    ToLowerFixed(s);
    NormalizeHostIs(s);
    assert WithPort(s, host, port);
  }

  /** So does an address in brackets, which also loses the brackets. */
  lemma BracketsAreStripped(host: string, port: string)
    requires Lowered(host) && '[' !in host && ']' !in host && IsDigits(port)
    ensures NormalizeHost("[" + host + "]:" + port) == host
  {
    var s := "[" + host + "]:" + port;
    DigitsArePlain(port);
    assert Lowered(s) && Trimmed(s);
    ToLowerFixed(s);
    NormalizeHostIs(s);
    assert WithPort(s, host, port);
  }

  /** A bare address with several colons is left as it is, and so is a host without a colon. */
  lemma OthersAreKept(s: string, i: nat, j: nat)
    requires Lowered(s) && Trimmed(s)
    requires ':' !in s || (i < j < |s| && s[i] == ':' && s[j] == ':' && '[' !in s)
    ensures NormalizeHost(s) == s
  {
    ToLowerFixed(s);
    NormalizeHostIs(s);
    forall host, port ensures !WithPort(s, host, port) {
      if WithPort(s, host, port) {
        HasColon(s, host, port);
        if s == host + ":" + port && Plain(host) {
          OneColon(s, host, port, i);
          OneColon(s, host, port, j);
        } else {
          StartsWithBracket(s, host, port);
        }
      }
    }
  }

  lemma OneColon(s: string, host: string, port: string, k: nat)
    requires s == host + ":" + port && Plain(host) && Plain(port) && k < |s| && s[k] == ':'
    ensures k == |host|
  {
    assert forall m :: 0 <= m < |host| ==> s[m] in host;
    assert forall m :: |host| < m < |s| ==> s[m] in port;
  }

  lemma StartsWithBracket(s: string, host: string, port: string)
    requires s == "[" + host + "]:" + port
    ensures '[' in s
  {
    assert s[0] == '[';
  }
}
