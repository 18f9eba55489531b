/** Every token text is produced by equally many accepted byte strings. */
module TokenUniformity {
  import opened Base64
  import opened TokenGenerator

  ghost function Pow7(n: nat): nat { if n == 0 then 1 else 7 * Pow7(n - 1) }

  /** Accepted byte strings of the right length whose image is `w`. */
  ghost predicate Produces(s: seq<byte>, w: string) {
    && |s| == |w|
    && (forall i :: 0 <= i < |s| ==> s[i] < LIMIT)
    && Image(s) == w
  }

  ghost function PrependAll(b: byte, tails: set<seq<byte>>): set<seq<byte>> {
    set t | t in tails :: [b] + t
  }

  /** The strings that start with one of the first `k` bytes congruent to `i` modulo 36. */
  ghost function PrependClass(i: nat, k: nat, tails: set<seq<byte>>): set<seq<byte>>
    requires i < 36 && k <= 7
  {
    if k == 0 then {} else PrependClass(i, k - 1, tails) + PrependAll(i + 36 * (k - 1), tails)
  }

  lemma {:induction false} PrependAllSize(b: byte, tails: set<seq<byte>>)
    ensures |PrependAll(b, tails)| == |tails|
    decreases |tails|
  {
    if tails != {} {
      assert (forall t :: t !in tails) ==> tails == {};
      var t :| t in tails;
      PrependAllSize(b, tails - {t});
      forall u | u in tails && [b] + u == [b] + t ensures u == t {
        assert u == ([b] + u)[1..] == ([b] + t)[1..] == t;
      }
      assert PrependAll(b, tails) == PrependAll(b, tails - {t}) + {[b] + t};
      assert [b] + t !in PrependAll(b, tails - {t});
    }
  }

  lemma PrependAllMembers(b: byte, tails: set<seq<byte>>, s: seq<byte>)
    ensures s in PrependAll(b, tails) <==> |s| > 0 && s[1..] in tails && s[0] == b
  {
    if |s| > 0 { assert s == [s[0]] + s[1..]; }
  }

  lemma {:induction false} PrependClassMembers(i: nat, k: nat, tails: set<seq<byte>>, s: seq<byte>)
    requires i < 36 && k <= 7
    ensures s in PrependClass(i, k, tails) <==> |s| > 0 && s[1..] in tails && s[0] % 36 == i && s[0] < 36 * k
  {
    if k > 0 {
      PrependClassMembers(i, k - 1, tails, s);
      PrependAllMembers(i + 36 * (k - 1), tails, s);
    }
  }

  lemma {:induction false} PrependClassSize(i: nat, k: nat, tails: set<seq<byte>>)
    requires i < 36 && k <= 7
    ensures |PrependClass(i, k, tails)| == Times(k, |tails|)
  {
    hide PrependAll;
    if k > 0 {
      PrependClassSize(i, k - 1, tails);
      NextIsDisjoint(i, k - 1, tails);
      PrependAllSize(i + 36 * (k - 1), tails);
    }
  }

  /** Multiplication as repeated addition, which the induction over classes follows. */
  ghost function Times(k: nat, n: nat): nat { if k == 0 then 0 else Times(k - 1, n) + n }

  lemma {:induction false} TimesIs(k: nat, n: nat)
    ensures Times(k, n) == k * n
  {
    if k > 0 { TimesIs(k - 1, n); }
  }

  lemma NextIsDisjoint(i: nat, k: nat, tails: set<seq<byte>>)
    requires i < 36 && k < 7
    ensures PrependClass(i, k, tails) !! PrependAll(i + 36 * k, tails)
  {
    hide PrependClass, PrependAll;
    forall s | s in PrependClass(i, k, tails) ensures s !in PrependAll(i + 36 * k, tails) {
      PrependClassMembers(i, k, tails, s);
      PrependAllMembers(i + 36 * k, tails, s);
    }
  }

  /** The position of a token character in the alphabet. */
  function Rank(c: char): (r: nat) {
    if 'a' <= c <= 'z' then c as int - 'a' as int
    else if '0' <= c <= '9' then c as int - '0' as int + 26
    else 0
  }

  lemma RankOfTokenChar(b: byte, c: char)
    requires IsTokenChar(c)
    ensures Rank(c) < 36
    ensures TokenChar(b) == c <==> b % 36 == Rank(c)
  {
    var r := b % 36;
    assert r < 26 ==> ALPHABET[r] == (r + 'a' as int) as char;
    assert r >= 26 ==> ALPHABET[r] == (r - 26 + '0' as int) as char;
  }

  /** The set of all byte strings that produce `w`. */
  ghost function Preimages(w: string): set<seq<byte>>
    requires forall i :: 0 <= i < |w| ==> IsTokenChar(w[i])
  {
    if w == "" then {[]}
    else
      RankOfTokenChar(0, w[0]);
      PrependClass(Rank(w[0]), 7, Preimages(w[1..]))
  }

  lemma ProducesStep(s: seq<byte>, w: string)
    requires w != "" && IsTokenChar(w[0])
    ensures Produces(s, w) <==> |s| > 0 && s[0] < LIMIT && s[0] % 36 == Rank(w[0]) && Produces(s[1..], w[1..])
  {
    if |s| == |w| {
      RankOfTokenChar(s[0], w[0]);
      assert Image(s)[1..] == Image(s[1..]);
      assert w == [w[0]] + w[1..];
      assert Image(s) == [TokenChar(s[0])] + Image(s)[1..];
    }
  }

  lemma UnfoldPreimages(w: string) returns (i: nat, tails: set<seq<byte>>)
    requires w != "" && forall i :: 0 <= i < |w| ==> IsTokenChar(w[i])
    ensures i == Rank(w[0]) < 36 && tails == Preimages(w[1..]) && Preimages(w) == PrependClass(i, 7, tails)
  {
    hide PrependClass, TokenChar;
    RankOfTokenChar(0, w[0]);
    i, tails := Rank(w[0]), Preimages(w[1..]);
    hide Rank, IsTokenChar;
  }

  lemma PreimageStep(s: seq<byte>, w: string)
    requires w != "" && forall i :: 0 <= i < |w| ==> IsTokenChar(w[i])
    ensures s in Preimages(w) <==> |s| > 0 && s[0] < LIMIT && s[0] % 36 == Rank(w[0]) && s[1..] in Preimages(w[1..])
  {
    hide PrependClass, Rank, TokenChar, IsTokenChar;
    var i, tails := UnfoldPreimages(w);
    hide Preimages;
    WholeClass(i, tails, s);
  }

  lemma WholeClass(i: nat, tails: set<seq<byte>>, s: seq<byte>)
    requires i < 36
    ensures s in PrependClass(i, 7, tails) <==> |s| > 0 && s[0] < LIMIT && s[0] % 36 == i && s[1..] in tails
  {
    hide PrependClass;
    PrependClassMembers(i, 7, tails, s);
    assert LIMIT == 252;
  }

  lemma {:induction false} PreimageIff(s: seq<byte>, w: string)
    requires forall i :: 0 <= i < |w| ==> IsTokenChar(w[i])
    ensures s in Preimages(w) <==> Produces(s, w)
    decreases |w|
  {
    if w == "" {
      assert Preimages(w) == {[]};
    } else {
      PreimageStep(s, w);
      ProducesStep(s, w);
      if |s| > 0 { PreimageIff(s[1..], w[1..]); }
    }
  }

  lemma {:induction false} PreimageCount(w: string)
    requires forall i :: 0 <= i < |w| ==> IsTokenChar(w[i])
    ensures |Preimages(w)| == Pow7(|w|)
  {
    if w != "" {
      PreimageCount(w[1..]);
      RankOfTokenChar(0, w[0]);
      PrependClassSize(Rank(w[0]), 7, Preimages(w[1..]));
      TimesIs(7, |Preimages(w[1..])|);
    }
  }

  /** Rejection sampling is exactly uniform: each text of length n over the alphabet comes from
      exactly 7^n accepted byte strings. */
  lemma EveryTextHasEqualWeight(w: string)
    requires forall i :: 0 <= i < |w| ==> IsTokenChar(w[i])
    ensures forall s :: s in Preimages(w) <==> Produces(s, w)
    ensures |Preimages(w)| == Pow7(|w|)
  {
    forall s ensures s in Preimages(w) <==> Produces(s, w) { PreimageIff(s, w); }
    PreimageCount(w);
  }

  /** An accepted byte string drives the generator to exactly its image, using all of it. */
  lemma {:induction false} AcceptedStringDrawsImage(s: seq<byte>)
    requires forall i :: 0 <= i < |s| ==> s[i] < LIMIT
    ensures Draw(s, |s|) == Drawn(Image(s), [])
  {
    if s != [] {
      AcceptedStringDrawsImage(s[1..]);
      assert Image(s) == [TokenChar(s[0])] + Image(s[1..]);
    }
  }
}
