/** The parts of Go's `strings` package that the server uses, over ASCII text. */
module GoStrings {

  function ToLowerChar(c: char): char {
    if 'A' <= c <= 'Z' then ((c as int) + 32) as char else c
  }

  function ToLower(s: string): (r: string)
    ensures |r| == |s|
    ensures forall i :: 0 <= i < |s| ==> r[i] == ToLowerChar(s[i])
  {
    seq(|s|, i requires 0 <= i < |s| => ToLowerChar(s[i]))
  }

  /** Space, tab, line feed, vertical tab, form feed and carriage return. */
  predicate IsSpace(c: char) {
    c == ' ' || 9 <= c as int <= 13
  }

  const UPPER_CASE := "ABCDEFGHIJKLMNOPQRSTUVWXYZ"
  const LOWER_CASE := "abcdefghijklmnopqrstuvwxyz"
  const DIGITS := "0123456789"

  lemma TablesAre(c: char)
    ensures c in LOWER_CASE <==> 'a' <= c <= 'z'
    ensures c in UPPER_CASE <==> 'A' <= c <= 'Z'
    ensures c in DIGITS <==> '0' <= c <= '9'
  {
    assert forall i :: 0 <= i < 26 ==> UPPER_CASE[i] == (65 + i) as char;
    assert forall i :: 0 <= i < 26 ==> LOWER_CASE[i] == (97 + i) as char;
    assert forall i :: 0 <= i < 10 ==> DIGITS[i] == (48 + i) as char;
    if 'A' <= c <= 'Z' { assert UPPER_CASE[c as int - 65] == c; }
    if 'a' <= c <= 'z' { assert LOWER_CASE[c as int - 97] == c; }
    if '0' <= c <= '9' { assert DIGITS[c as int - 48] == c; }
  }

  /** Lowering replaces each capital letter by its small one and nothing else. */
  lemma LowerCharIs(c: char)
    ensures forall i :: 0 <= i < 26 && c == UPPER_CASE[i] ==> ToLowerChar(c) == LOWER_CASE[i]
    ensures c !in UPPER_CASE ==> ToLowerChar(c) == c
  {
    assert forall i :: 0 <= i < 26 ==> UPPER_CASE[i] == (65 + i) as char;
    assert forall i :: 0 <= i < 26 ==> LOWER_CASE[i] == (97 + i) as char;
    if 'A' <= c <= 'Z' { assert UPPER_CASE[c as int - 65] == c; }
  }

  /** The white space that `strings.TrimSpace` drops from ASCII text. */
  lemma SpaceIs(c: char)
    ensures IsSpace(c) <==> c in [' ', '\t', '\n', '\U{0B}', '\U{0C}', '\r']
  {
    assert ' ' as int == 32 && '\t' as int == 9 && '\n' as int == 10 && '\r' as int == 13;
    assert '\U{0B}' as int == 11 && '\U{0C}' as int == 12;
  }

  predicate AllSpace(s: string) {
    forall i :: 0 <= i < |s| ==> IsSpace(s[i])
  }

  predicate Trimmed(s: string) {
    s == "" || (!IsSpace(s[0]) && !IsSpace(s[|s| - 1]))
  }

  predicate Lowered(s: string) {
    forall i :: 0 <= i < |s| ==> !('A' <= s[i] <= 'Z')
  }

  /** The first position from `i` on that holds no space. */
  function SkipSpace(s: string, i: nat): (r: nat)
    requires i <= |s|
    ensures i <= r <= |s|
    ensures forall k :: i <= k < r ==> IsSpace(s[k])
    ensures r < |s| ==> !IsSpace(s[r])
    decreases |s| - i
  {
    if i < |s| && IsSpace(s[i]) then SkipSpace(s, i + 1) else i
  }

  /** The end of `s[lo..hi]` once its trailing spaces are dropped. */
  function DropSpace(s: string, lo: nat, hi: nat): (r: nat)
    requires lo <= hi <= |s|
    ensures lo <= r <= hi
    ensures forall k :: r <= k < hi ==> IsSpace(s[k])
    ensures r > lo ==> !IsSpace(s[r - 1])
    decreases hi
  {
    if hi > lo && IsSpace(s[hi - 1]) then DropSpace(s, lo, hi - 1) else hi
  }

  function TrimSpace(s: string): (r: string)
    ensures Trimmed(r) && |r| <= |s|
    ensures r == "" <==> AllSpace(s)
    ensures Trimmed(s) ==> r == s
  {
    var lo := SkipSpace(s, 0);
    s[lo..DropSpace(s, lo, |s|)]
  }

  /** Trimming removes exactly the outer white space. */
  lemma TrimSpaceIs(before: string, middle: string, after: string)
    requires AllSpace(before) && AllSpace(after) && Trimmed(middle) && middle != ""
    ensures TrimSpace(before + middle + after) == middle
  {
    var s := before + middle + after;
    var lo, end := SkipSpace(s, 0), |before| + |middle|;
    var hi := DropSpace(s, lo, |s|);
    forall k | 0 <= k < |before| ensures IsSpace(s[k]) { assert s[k] == before[k]; }
    forall k | end <= k < |s| ensures IsSpace(s[k]) { assert s[k] == after[k - end]; }
    assert s[|before|] == middle[0] && s[end - 1] == middle[|middle| - 1];
    assert lo == |before| && hi == end;
    assert s[lo..hi] == middle;
  }

  lemma LowerOfConcat(a: string, b: string)
    ensures ToLower(a + b) == ToLower(a) + ToLower(b)
  {
  }

  lemma AllSpaceOfLower(s: string)
    ensures AllSpace(ToLower(s)) <==> AllSpace(s)
  {
    if AllSpace(ToLower(s)) {
      forall i | 0 <= i < |s| ensures IsSpace(s[i]) { assert IsSpace(ToLower(s)[i]); }
    }
  }

  lemma TrimSpaceOfLower(s: string)
    ensures TrimSpace(ToLower(s)) == "" <==> TrimSpace(s) == ""
    ensures Lowered(TrimSpace(ToLower(s)))
  {
    AllSpaceOfLower(s);
    PieceIsLowered(ToLower(s), SkipSpace(ToLower(s), 0));
  }

  lemma PieceIsLowered(s: string, lo: nat)
    requires Lowered(s) && lo <= |s|
    ensures Lowered(s[lo..DropSpace(s, lo, |s|)])
  {
  }

  lemma ToLowerFixed(s: string)
    requires Lowered(s)
    ensures ToLower(s) == s
  {
  }

  lemma LowerOfTrimmed(s: string)
    ensures Trimmed(ToLower(TrimSpace(s))) && ToLower(ToLower(TrimSpace(s))) == ToLower(TrimSpace(s))
    ensures ToLower(TrimSpace(s)) == "" <==> TrimSpace(s) == ""
  {
    ToLowerFixed(ToLower(TrimSpace(s)));
  }

  function TrimSuffix(s: string, suffix: string): string {
    if |suffix| <= |s| && s[|s| - |suffix|..] == suffix then s[..|s| - |suffix|] else s
  }

  predicate HasPrefix(s: string, prefix: string) {
    prefix <= s
  }

  predicate HasSuffix(s: string, suffix: string) {
    |suffix| <= |s| && s[|s| - |suffix|..] == suffix
  }

  function TrimPrefix(s: string, prefix: string): string {
    if prefix <= s then s[|prefix|..] else s
  }

  predicate OccursAt(s: string, part: string, i: int) {
    0 <= i <= |s| - |part| && s[i..i + |part|] == part
  }

  predicate Contains(s: string, part: string) {
    exists i :: 0 <= i <= |s| && OccursAt(s, part, i)
  }

  /** `strings.Split` with a one-character separator. */
  function Split(s: string, sep: char): (parts: seq<string>)
    ensures |parts| >= 1
  {
    if s == "" then [""]
    else if s[0] == sep then [""] + Split(s[1..], sep)
    else var rest := Split(s[1..], sep); [[s[0]] + rest[0]] + rest[1..]
  }

  function Join(parts: seq<string>, sep: char): string {
    if |parts| == 0 then ""
    else if |parts| == 1 then parts[0]
    else parts[0] + [sep] + Join(parts[1..], sep)
  }

  predicate NoneContain(parts: seq<string>, sep: char) {
    forall i :: 0 <= i < |parts| ==> sep !in parts[i]
  }

  lemma {:induction false} SplitJoins(s: string, sep: char)
    ensures NoneContain(Split(s, sep), sep)
    ensures Join(Split(s, sep), sep) == s
  {
    if s != "" {
      SplitJoins(s[1..], sep);
      var rest := Split(s[1..], sep);
      if s[0] == sep {
        assert ([""] + rest)[1..] == rest;
        assert s == [sep] + s[1..];
      } else {
        var parts := [[s[0]] + rest[0]] + rest[1..];
        assert parts[1..] == rest[1..];
        assert s == [s[0]] + s[1..];
        if |rest| > 1 {
          assert Join(parts, sep) == [s[0]] + (rest[0] + [sep] + Join(rest[1..], sep));
        }
      }
    }
  }

  function Grow(c: char, sep: char, parts: seq<string>): seq<string>
    requires parts != []
  {
    if c == sep then [""] + parts else [[c] + parts[0]] + parts[1..]
  }

  lemma SplitCons(c: char, s: string, sep: char)
    ensures Split([c] + s, sep) == Grow(c, sep, Split(s, sep))
  {
    assert ([c] + s)[1..] == s;
  }

  lemma GrowConcat(c: char, sep: char, a: seq<string>, b: seq<string>)
    requires a != []
    ensures Grow(c, sep, a + b) == Grow(c, sep, a) + b
  {
    assert (a + b)[1..] == a[1..] + b;
  }

  lemma {:induction false} SplitConcat(a: string, b: string, sep: char)
    ensures Split(a + [sep] + b, sep) == Split(a, sep) + Split(b, sep)
  {
    if a == "" {
      assert a + [sep] + b == [sep] + b;
      SplitCons(sep, b, sep);
    } else {
      hide Split, Grow;
      var rest := a[1..];
      SplitConcat(rest, b, sep);
      SplitCons(a[0], rest + [sep] + b, sep);
      SplitCons(a[0], rest, sep);
      GrowConcat(a[0], sep, Split(rest, sep), Split(b, sep));
      assert a == [a[0]] + rest;
      assert a + [sep] + b == [a[0]] + (rest + [sep] + b);
    }
  }

  lemma {:induction false} SplitWithout(s: string, sep: char)
    requires sep !in s
    ensures Split(s, sep) == [s]
  {
    if s != "" {
      SplitWithout(s[1..], sep);
      assert s == [s[0]] + s[1..];
    }
  }

  lemma {:induction false} JoinSplits(parts: seq<string>, sep: char)
    requires |parts| >= 1 && NoneContain(parts, sep)
    ensures Split(Join(parts, sep), sep) == parts
  {
    SplitWithout(parts[0], sep);
    if |parts| > 1 {
      JoinSplits(parts[1..], sep);
      SplitConcat(parts[0], Join(parts[1..], sep), sep);
      assert parts == [parts[0]] + parts[1..];
    }
  }

  /** `strings.Compare(a, b) < 0`: byte-wise lexicographic order. */
  predicate Less(a: string, b: string) {
    if b == "" then false
    else if a == "" then true
    else if a[0] != b[0] then a[0] < b[0]
    else Less(a[1..], b[1..])
  }

  lemma {:induction false} LessIrreflexive(a: string)
    ensures !Less(a, a)
  {
    if a != "" { LessIrreflexive(a[1..]); }
  }

  lemma {:induction false} LessTransitive(a: string, b: string, c: string)
    requires Less(a, b) && Less(b, c)
    ensures Less(a, c)
  {
    if a != "" && a[0] == b[0] == c[0] { LessTransitive(a[1..], b[1..], c[1..]); }
  }

  lemma {:induction false} LessTotal(a: string, b: string)
    ensures a == b || Less(a, b) || Less(b, a)
  {
    if a != "" && b != "" && a[0] == b[0] {
      LessTotal(a[1..], b[1..]);
      if a[1..] == b[1..] { assert a == [a[0]] + a[1..] == [b[0]] + b[1..] == b; }
    }
  }

  /** Two strings agree up to `k`, where the first ends or has the smaller character. */
  predicate DiffersAt(a: string, b: string, k: nat) {
    k <= |a| && k < |b| && a[..k] == b[..k] && (k == |a| || a[k] < b[k])
  }

  /** The order is the one of the first difference. */
  lemma {:induction false} LessIff(a: string, b: string)
    ensures Less(a, b) <==> exists k :: 0 <= k < |b| && DiffersAt(a, b, k)
  {
    if a != "" && b != "" && a[0] == b[0] {
      LessIff(a[1..], b[1..]);
      if k :| 0 <= k < |b| && DiffersAt(a, b, k) {
        assert a[1..][..k - 1] == a[..k][1..] && b[1..][..k - 1] == b[..k][1..];
        assert DiffersAt(a[1..], b[1..], k - 1);
      }
      if k :| 0 <= k < |b[1..]| && DiffersAt(a[1..], b[1..], k) {
        assert a[..k + 1] == [a[0]] + a[1..][..k] && b[..k + 1] == [b[0]] + b[1..][..k];
        assert DiffersAt(a, b, k + 1);
      }
    } else if b != "" {
      assert forall k :: 0 < k <= |a| && k <= |b| ==> a[..k][0] == a[0] && b[..k][0] == b[0];
      if a == "" || a[0] < b[0] { assert DiffersAt(a, b, 0); }
    }
  }
}
