/** Domain-name normalisation and validation, and the host normalisation used for routing. */
module DomainNames {
  import opened GoStrings
  import opened Wrappers

  /** The part of the configuration that name checks and quotas read.
      A blocked pattern is an arbitrary predicate: what a regular expression matches is not modelled. */
  datatype DomainConstraints = DomainConstraints(
    enabled: bool,
    maxDomainsPerUser: int,
    maxDomainsPerOrg: int,
    allowApex: bool,
    allowSubdomain: bool,
    allowWildcard: bool,
    reserved: seq<string>,
    blockedPatterns: seq<string -> bool>)

  datatype NameError =
    | NameRequired
    | SchemePathOrPort
    | WildcardDisabled
    | InvalidTLD
    | ApexDisabled
    | SubdomainDisabled
    | ReservedName
    | BlockedPattern
    | InvalidLabel

  function NormalizeDomainName(input: string): string {
    TrimSuffix(TrimSpace(ToLower(input)), ".")
  }

  predicate IsLetter(c: char) { 'a' <= c <= 'z' }

  predicate IsAlnum(c: char) { IsLetter(c) || '0' <= c <= '9' }

  /** One to 63 letters, digits or hyphens, no hyphen at either end. */
  predicate IsLabel(s: string) {
    && 1 <= |s| <= 63
    && IsAlnum(s[0]) && IsAlnum(s[|s| - 1])
    && forall i :: 0 <= i < |s| ==> IsAlnum(s[i]) || s[i] == '-'
  }

  predicate IsTopLevel(s: string) {
    |s| >= 2 && forall i :: 0 <= i < |s| ==> IsLetter(s[i])
  }

  ghost predicate IsLong(s: string, mid: string) {
    && |mid| <= 61 && |s| == |mid| + 2 && s == [s[0]] + mid + [s[|s| - 1]]
    && s[0] in LOWER_CASE + DIGITS && s[|s| - 1] in LOWER_CASE + DIGITS
    && forall c :: c in mid ==> c in LOWER_CASE + DIGITS + "-"
  }

  /** The labels are what the pattern of the source matches: a letter or digit, or two of them around at most 61
      letters, digits and hyphens. */
  lemma LabelMatchesPattern(s: string)
    ensures IsLabel(s) <==> (|s| == 1 && s[0] in LOWER_CASE + DIGITS) || exists mid :: IsLong(s, mid)
  {
    AlnumTables();
    hide IsAlnum;
    if |s| >= 2 {
      var mid := s[1..|s| - 1];
      assert s == [s[0]] + mid + [s[|s| - 1]];
      if IsLabel(s) { assert IsLong(s, mid); }
      forall other | IsLong(s, other) ensures IsLabel(s) { LongIsLabel(s, other); }
    }
  }

  lemma LongIsLabel(s: string, mid: string)
    requires IsLong(s, mid)
    ensures IsLabel(s)
  {
    AlnumTables();
    hide IsAlnum;
    assert forall i :: 0 < i < |s| - 1 ==> s[i] == mid[i - 1];
  }

  lemma AlnumTables()
    ensures forall c :: IsAlnum(c) <==> c in LOWER_CASE + DIGITS
    ensures forall c :: IsAlnum(c) || c == '-' <==> c in LOWER_CASE + DIGITS + "-"
  {
    forall c: char ensures IsAlnum(c) <==> c in LOWER_CASE + DIGITS { TablesAre(c); }
  }

  /** A top-level label is at least two letters. */
  lemma TopLevelMatchesPattern(s: string)
    ensures IsTopLevel(s) <==> |s| > 1 && forall c :: c in s ==> c in LOWER_CASE
  {
    forall c: char ensures IsLetter(c) <==> c in LOWER_CASE { TablesAre(c); }
  }

  predicate MatchesReserved(domain: string, reserved: string) {
    if HasPrefix(reserved, "*.") then HasSuffix(domain, TrimPrefix(reserved, "*"))
    else domain == reserved
  }

  function ValidateDomainName(input: string, c: DomainConstraints): Option<NameError> {
    var domain := NormalizeDomainName(input);
    if domain == "" then Some(NameRequired)
    else if Contains(domain, "://") || Contains(domain, "/") || Contains(domain, ":") then Some(SchemePathOrPort)
    else
      var isWildcard := HasPrefix(domain, "*.");
      var bare := TrimPrefix(domain, "*.");
      var labels := Split(bare, '.');
      var isApex := |labels| == 2;
      if isWildcard && !c.allowWildcard then Some(WildcardDisabled)
      else if |labels| < 2 then Some(InvalidTLD)
      else if isApex && !c.allowApex then Some(ApexDisabled)
      else if !isApex && !c.allowSubdomain && !isWildcard then Some(SubdomainDisabled)
      else if exists i :: 0 <= i < |c.reserved| && MatchesReserved(domain, c.reserved[i]) then Some(ReservedName)
      else if exists i :: 0 <= i < |c.blockedPatterns| && c.blockedPatterns[i](bare) then Some(BlockedPattern)
      else if exists i :: 0 <= i < |labels| && !IsLabel(labels[i]) then Some(InvalidLabel)
      else if !IsTopLevel(labels[|labels| - 1]) then Some(InvalidTLD)
      else None
  }

  /** Position of the last occurrence of `c`, or -1. */
  function LastIndex(s: string, c: char): (r: int)
    ensures -1 <= r < |s|
  {
    if s == "" then -1
    else if s[|s| - 1] == c then |s| - 1
    else LastIndex(s[..|s| - 1], c)
  }

  /** Position of the first occurrence of `c`, or -1. */
  function FirstIndex(s: string, c: char): (r: int)
    ensures -1 <= r < |s|
  {
    if s == "" then -1
    else if s[0] == c then 0
    else var r := FirstIndex(s[1..], c); if r < 0 then -1 else r + 1
  }

  lemma {:induction false} FirstIndexIsFirst(s: string, c: char)
    ensures var r := FirstIndex(s, c);
            && (r >= 0 ==> s[r] == c && c !in s[..r])
            && (r < 0 <==> c !in s)
  {
    if s != "" {
      FirstIndexIsFirst(s[1..], c);
      assert s == [s[0]] + s[1..];
      var r := FirstIndex(s, c);
      if r > 0 { assert s[..r] == [s[0]] + s[1..][..r - 1]; }
    }
  }

  predicate HasChar(s: string, c: char) { FirstIndex(s, c) >= 0 }

  /** The host part that Go's `net.SplitHostPort` returns, or `None` where it reports an error. */
  function SplitHostPort(s: string): Option<string> {
    var i := LastIndex(s, ':');
    if i < 0 then None
    else if s[0] == '[' then
      var end := FirstIndex(s, ']');
      if end < 0 || end + 1 != i then None
      else if HasChar(s[1..], '[') || HasChar(s[end + 1..], ']') then None
      else Some(s[1..end])
    else if HasChar(s[..i], ':') || HasChar(s, '[') || HasChar(s, ']') then None
    else Some(s[..i])
  }

  function NormalizeHost(input: string): string {
    var trimmed := TrimSpace(ToLower(input));
    if HasChar(trimmed, ':') then
      match SplitHostPort(trimmed)
      case Some(host) => host
      case None => trimmed
    else trimmed
  }

  /** What a stored domain name looks like: an optional wildcard mark and its labels rejoined. */
  ghost predicate IsCanonicalName(d: string) {
    exists labels: seq<string> :: RejoinsTo(labels, d)
  }

  ghost predicate RejoinsTo(labels: seq<string>, d: string) {
    && |labels| >= 2
    && (forall i :: 0 <= i < |labels| ==> IsLabel(labels[i]))
    && IsTopLevel(labels[|labels| - 1])
    && (d == Join(labels, '.') || d == "*." + Join(labels, '.'))
  }

  lemma {:induction false} JoinEndsWithLast(labels: seq<string>)
    requires |labels| >= 1
    ensures HasSuffix(Join(labels, '.'), labels[|labels| - 1])
  {
    if |labels| > 1 { JoinEndsWithLast(labels[1..]); }
  }

  /** The characters of a canonical name, other than a leading wildcard mark. */
  predicate IsNameChar(c: char) { IsAlnum(c) || c == '-' || c == '.' }

  lemma {:induction false} JoinChars(labels: seq<string>)
    requires forall i :: 0 <= i < |labels| ==> IsLabel(labels[i])
    ensures forall c :: c in Join(labels, '.') ==> IsNameChar(c)
    ensures |labels| >= 1 ==> Join(labels, '.') != "" && IsAlnum(Join(labels, '.')[0])
  {
    if |labels| > 1 { JoinChars(labels[1..]); }
  }

  predicate EndsWithDot(s: string) { s != "" && s[|s| - 1] == '.' }

  lemma TrimDot(s: string)
    ensures TrimSuffix(s, ".") == if EndsWithDot(s) then s[..|s| - 1] else s
  {
    if s != "" { assert s[|s| - 1..] == [s[|s| - 1]]; }
  }

  lemma NormalFormIff(d: string)
    requires Lowered(d)
    ensures NormalizeDomainName(d) == d <==> Trimmed(d) && !EndsWithDot(d)
  {
    ToLowerFixed(d);
    TrimDot(TrimSpace(d));
  }

  /** A canonical name is left alone by both normalisations, so the store key, the stored name
      and the routing key of a registered domain are one and the same string. */
  lemma CanonicalNameIsFixed(d: string)
    requires IsCanonicalName(d)
    ensures d != "" && Lowered(d) && Trimmed(d) && ':' !in d
    ensures NormalizeDomainName(d) == d
    ensures NormalizeHost(d) == d
  {
    var labels :| RejoinsTo(labels, d);
    var joined := Join(labels, '.');
    CanonicalShape(labels, d);
    NormalFormIff(d);
    ToLowerFixed(d);
    FirstIndexIsFirst(d, ':');
  }

  lemma CanonicalShape(labels: seq<string>, d: string)
    requires RejoinsTo(labels, d)
    ensures d != "" && Lowered(d) && Trimmed(d) && ':' !in d && !EndsWithDot(d)
  {
    var joined := Join(labels, '.');
    JoinEndsWithLast(labels);
    JoinChars(labels);
    var top := labels[|labels| - 1];
    assert IsLetter(top[|top| - 1]);
    assert joined[|joined| - 1] == joined[|joined| - |top|..][|top| - 1];
    if d == joined {
      assert forall i :: 0 <= i < |d| ==> d[i] in joined;
    } else {
      assert forall i :: 2 <= i < |d| ==> d[i] == joined[i - 2] && d[i] in joined;
    }
  }

  /** Every accepted name normalises to a canonical name. */
  lemma AcceptedNameIsCanonical(input: string, c: DomainConstraints)
    requires ValidateDomainName(input, c) == None
    ensures IsCanonicalName(NormalizeDomainName(input))
  {
    hide Contains, MatchesReserved, TrimSuffix;
    var domain := NormalizeDomainName(input);
    var bare := TrimPrefix(domain, "*.");
    SplitJoins(bare, '.');
    assert RejoinsTo(Split(bare, '.'), domain);
  }

  /** The part of name validation that is policy: which well-formed names the configuration lets through. */
  predicate Permitted(d: string, c: DomainConstraints) {
    var bare := TrimPrefix(d, "*.");
    var isWildcard, isApex := HasPrefix(d, "*."), |Split(bare, '.')| == 2;
    && (isWildcard ==> c.allowWildcard)
    && (isApex ==> c.allowApex)
    && (!isApex && !isWildcard ==> c.allowSubdomain)
    && (forall i :: 0 <= i < |c.reserved| ==> !MatchesReserved(d, c.reserved[i]))
    && (forall i :: 0 <= i < |c.blockedPatterns| ==> !c.blockedPatterns[i](bare))
  }

  lemma NoSlashOrColon(labels: seq<string>, d: string)
    requires RejoinsTo(labels, d)
    ensures !Contains(d, "://") && !Contains(d, "/") && !Contains(d, ":")
  {
    JoinChars(labels);
    var joined := Join(labels, '.');
    forall i | 0 <= i < |d| ensures d[i] != '/' && d[i] != ':' {
      if d == joined { assert d[i] in joined; } else if i >= 2 { assert d[i] == joined[i - 2] && d[i] in joined; }
    }
    forall part, i | part in ["://", "/", ":"] && 0 <= i <= |d| ensures !OccursAt(d, part, i) {
      if i + |part| <= |d| { assert d[i..i + |part|][0] == d[i]; }
    }
    assert ["://", "/", ":"][0] == "://" && ["://", "/", ":"][1] == "/" && ["://", "/", ":"][2] == ":";
  }

  lemma LabelsOfCanonical(labels: seq<string>, d: string)
    requires RejoinsTo(labels, d)
    ensures Split(TrimPrefix(d, "*."), '.') == labels
  {
    JoinChars(labels);
    var joined := Join(labels, '.');
    assert joined[0] != '*';
    assert TrimPrefix(d, "*.") == joined;
    forall i | 0 <= i < |labels| ensures '.' !in labels[i] {}
    JoinSplits(labels, '.');
  }

  lemma CanonicalIsWellFormed(d: string)
    requires IsCanonicalName(d)
    ensures d != "" && !Contains(d, "://") && !Contains(d, "/") && !Contains(d, ":")
    ensures var labels := Split(TrimPrefix(d, "*."), '.');
            |labels| >= 2 && IsTopLevel(labels[|labels| - 1]) && forall i :: 0 <= i < |labels| ==> IsLabel(labels[i])
  {
    hide Contains, TrimPrefix, IsLabel, IsTopLevel;
    var labels :| RejoinsTo(labels, d);
    NoSlashOrColon(labels, d);
    LabelsOfCanonical(labels, d);
    JoinChars(labels);
  }

  /** Validation accepts exactly the inputs that normalise to a well-formed name the configuration permits. */
  lemma AcceptedIff(input: string, c: DomainConstraints)
    ensures var d := NormalizeDomainName(input);
            ValidateDomainName(input, c) == None <==> IsCanonicalName(d) && Permitted(d, c)
  {
    hide NormalizeDomainName, IsCanonicalName, Contains, IsLabel, IsTopLevel, MatchesReserved, TrimPrefix, HasPrefix;
    if ValidateDomainName(input, c) == None { AcceptedNameIsCanonical(input, c); }
    if IsCanonicalName(NormalizeDomainName(input)) { CanonicalIsWellFormed(NormalizeDomainName(input)); }
  }

  predicate IsWildcardFor(reserved: string, suffix: string) { reserved == "*." + suffix }

  predicate EndsInDomain(domain: string, lead: string, suffix: string) { domain == lead + "." + suffix }

  /** A reserved "*.x" covers the names that end in ".x"; any other reserved name covers itself. */
  lemma MatchesReservedIff(domain: string, reserved: string)
    ensures MatchesReserved(domain, reserved) <==>
              || (exists suffix, lead :: IsWildcardFor(reserved, suffix) && EndsInDomain(domain, lead, suffix))
              || ((forall suffix :: !IsWildcardFor(reserved, suffix)) && domain == reserved)
  {
    forall suffix | IsWildcardFor(reserved, suffix)
      ensures MatchesReserved(domain, reserved) <==> exists lead :: EndsInDomain(domain, lead, suffix)
    {
      WildcardMatches(domain, reserved, suffix);
    }
    if HasPrefix(reserved, "*.") { assert IsWildcardFor(reserved, reserved[2..]); }
    hide EndsInDomain;
  }

  lemma WildcardMatches(domain: string, reserved: string, suffix: string)
    requires IsWildcardFor(reserved, suffix)
    ensures MatchesReserved(domain, reserved) <==> exists lead :: EndsInDomain(domain, lead, suffix)
  {
    assert reserved[1..] == "." + suffix;
    if MatchesReserved(domain, reserved) {
      assert EndsInDomain(domain, domain[..|domain| - |suffix| - 1], suffix);
    }
    if lead :| EndsInDomain(domain, lead, suffix) {
      assert domain[|domain| - |suffix| - 1..] == "." + suffix;
    }
  }

  /** Case, outer white space and one final dot make no difference to a registered name, nor do case and white
      space to a host. */
  lemma VariantsNormalizeAlike(before: string, name: string, after: string)
    requires AllSpace(before) && AllSpace(after) && IsCanonicalName(ToLower(name))
    ensures NormalizeDomainName(before + name + after) == ToLower(name)
    ensures NormalizeDomainName(before + name + "." + after) == ToLower(name)
    ensures NormalizeHost(before + name + after) == ToLower(name)
  {
    hide TrimSpace, ToLower, TrimSuffix, IsCanonicalName, SplitHostPort, FirstIndex;
    var d := ToLower(name);
    CanonicalNameIsFixed(d);
    CanonicalEndsInLetter(d);
    VariantTrims(before, name, after);
    TrimDot(d);
    FirstIndexIsFirst(d, ':');
    DottedVariant(before, name, after);
  }

  lemma DottedVariant(before: string, name: string, after: string)
    requires AllSpace(before) && AllSpace(after) && Trimmed(ToLower(name)) && name != ""
    ensures NormalizeDomainName(before + name + "." + after) == ToLower(name)
  {
    hide TrimSpace, TrimSuffix;
    var d := ToLower(name);
    LowerOfConcat(name, ".");
    assert ToLower(name + ".") == d + "." && !IsSpace('.');
    VariantTrims(before, name + ".", after);
    assert before + (name + ".") + after == before + name + "." + after;
    TrimDot(d + ".");
    assert (d + ".")[..|d|] == d;
  }

  lemma VariantTrims(before: string, middle: string, after: string)
    requires AllSpace(before) && AllSpace(after) && Trimmed(ToLower(middle)) && middle != ""
    ensures TrimSpace(ToLower(before + middle + after)) == ToLower(middle)
  {
    LowerOfConcat(before + middle, after);
    LowerOfConcat(before, middle);
    AllSpaceOfLower(before);
    AllSpaceOfLower(after);
    TrimSpaceIs(ToLower(before), ToLower(middle), ToLower(after));
  }

  lemma CanonicalEndsInLetter(d: string)
    requires IsCanonicalName(d)
    ensures d != "" && !EndsWithDot(d)
  {
    var labels :| RejoinsTo(labels, d);
    CanonicalShape(labels, d);
  }

  /** Normalising twice changes the result exactly when the trimmed input ends in a dot that
      follows another dot or a space. */
  lemma NormalizeIdempotentIff(input: string)
    ensures var t := TrimSpace(ToLower(input));
            (NormalizeDomainName(NormalizeDomainName(input)) == NormalizeDomainName(input)
             <==> !(|t| >= 2 && t[|t| - 1] == '.' && (t[|t| - 2] == '.' || IsSpace(t[|t| - 2]))))
  {
    hide TrimSuffix, IsSpace;
    TrimSpaceOfLower(input);
    SecondPassIff(TrimSpace(ToLower(input)));
  }

  lemma SecondPassIff(t: string)
    requires Lowered(t) && Trimmed(t)
    ensures var d := TrimSuffix(t, ".");
            NormalizeDomainName(d) == d <==> !(|t| >= 2 && t[|t| - 1] == '.' && (t[|t| - 2] == '.' || IsSpace(t[|t| - 2])))
  {
    hide NormalizeDomainName;
    TrimDot(t);
    NormalFormIff(TrimSuffix(t, "."));
  }

  lemma NormalizeIsNotIdempotent()
    ensures NormalizeDomainName("a..") == "a."
    ensures NormalizeDomainName("a.") == "a"
  {
    assert ToLower("a..") == "a.." && ToLower("a.") == "a.";
  }
}
