/** Bearer-token values: the rejection-sampling generator and the format check. */
module TokenGenerator {
  import opened GoStrings
  import opened Wrappers
  import opened Base64

  const TOKEN_BYTES: nat := 32
  const ALPHABET := "abcdefghijklmnopqrstuvwxyz0123456789"

  /** 252, the largest multiple of the alphabet length that a byte can stay below. */
  const LIMIT: int := 256 - 256 % |ALPHABET|

  function TokenChar(b: byte): char { ALPHABET[b % 36] }

  predicate IsTokenChar(c: char) { 'a' <= c <= 'z' || '0' <= c <= '9' }

  /** A source of random bytes that may run dry. */
  class RandomReader {
    var rest: seq<byte>

    constructor (data: seq<byte>)
      ensures rest == data
    {
      rest := data;
    }

    /** `io.ReadFull` into one byte. */
    method ReadByte() returns (r: Option<byte>)
      modifies this
      ensures old(rest) == [] ==> r == None && rest == []
      ensures old(rest) != [] ==> r == Some(old(rest)[0]) && rest == old(rest)[1..]
    {
      if rest == [] {
        return None;
      }
      r := Some(rest[0]);
      rest := rest[1..];
    }
  }

  /** The accepted bytes of a stream, in order. */
  function Accepted(s: seq<byte>): (r: seq<byte>)
    ensures forall i :: 0 <= i < |r| ==> r[i] < LIMIT
    ensures |r| <= |s|
  {
    if s == [] then []
    else if s[0] < LIMIT then [s[0]] + Accepted(s[1..])
    else Accepted(s[1..])
  }

  function Image(s: seq<byte>): (r: string)
    ensures |r| == |s|
    ensures forall i :: 0 <= i < |s| ==> r[i] == TokenChar(s[i])
  {
    seq(|s|, i requires 0 <= i < |s| => TokenChar(s[i]))
  }

  datatype Drawn = Drawn(text: string, rest: seq<byte>) | Dry

  /** The simple form of the generator: draw bytes one at a time until `n` were accepted. */
  function Draw(s: seq<byte>, n: nat): Drawn
    decreases |s|
  {
    if n == 0 then Drawn("", s)
    else if s == [] then Dry
    else if s[0] >= LIMIT then Draw(s[1..], n)
    else
      match Draw(s[1..], n - 1)
      case Dry => Dry
      case Drawn(text, rest) => Drawn([TokenChar(s[0])] + text, rest)
  }

  lemma {:induction false} DrawFailsIff(s: seq<byte>, n: nat)
    ensures Draw(s, n).Dry? <==> |Accepted(s)| < n
    decreases |s|
  {
    hide TokenChar;
    if n > 0 && s != [] { DrawFailsIff(s[1..], if s[0] < LIMIT then n - 1 else n); }
  }

  lemma ImageCons(b: byte, s: seq<byte>)
    ensures Image([b] + s) == [TokenChar(b)] + Image(s)
  {
    hide TokenChar;
  }

  lemma {:induction false} DrawnText(s: seq<byte>, n: nat)
    requires Draw(s, n).Drawn?
    ensures n <= |Accepted(s)| && Draw(s, n).text == Image(Accepted(s)[..n])
    decreases |s|
  {
    hide TokenChar, Image;
    if n > 0 && s != [] {
      if s[0] < LIMIT {
        DrawnText(s[1..], n - 1);
        ImageCons(s[0], Accepted(s[1..])[..n - 1]);
        assert Accepted(s)[..n] == [s[0]] + Accepted(s[1..])[..n - 1];
      } else {
        DrawnText(s[1..], n);
      }
    } else {
      assert Accepted(s)[..n] == [] && Image([]) == "";
    }
  }

  lemma AcceptedPrefix(s: seq<byte>, k: nat)
    requires 0 < k <= |s|
    ensures |Accepted(s[..k])| == (if s[0] < LIMIT then 1 else 0) + |Accepted(s[1..][..k - 1])|
  {
    assert s[..k][1..] == s[1..][..k - 1];
  }

  /** `k` bytes are the shortest prefix of the stream that holds `n` accepted ones. */
  ghost predicate ShortestPrefix(s: seq<byte>, n: nat, k: nat) {
    k <= |s| && |Accepted(s[..k])| == n && forall j :: 0 <= j < k ==> |Accepted(s[..j])| < n
  }

  lemma ShortestPrefixStep(s: seq<byte>, n: nat, k: nat)
    requires n > 0 && s != [] && ShortestPrefix(s[1..], if s[0] < LIMIT then n - 1 else n, k)
    ensures ShortestPrefix(s, n, k + 1)
  {
    AcceptedPrefix(s, k + 1);
    forall j | 0 <= j < k + 1 ensures |Accepted(s[..j])| < n {
      if j > 0 { AcceptedPrefix(s, j); }
    }
  }

  lemma {:induction false} DrawnRest(s: seq<byte>, n: nat)
    requires Draw(s, n).Drawn?
    ensures var rest := Draw(s, n).rest;
            |rest| <= |s| && rest == s[|s| - |rest|..] && ShortestPrefix(s, n, |s| - |rest|)
    decreases |s|
  {
    hide TokenChar, Accepted, ShortestPrefix;
    if n == 0 {
      NothingToDraw(s);
    } else {
      var m := if s[0] < LIMIT then n - 1 else n;
      DrawnRest(s[1..], m);
      var k := |s[1..]| - |Draw(s[1..], m).rest|;
      assert s[1..][k..] == s[k + 1..];
      ShortestPrefixStep(s, n, k);
    }
  }

  lemma NothingToDraw(s: seq<byte>)
    ensures ShortestPrefix(s, 0, 0)
  {
    assert s[..0] == [];
  }

  /** Drawing yields the image of the first `n` accepted bytes, leaves the stream right after the
      shortest prefix that holds them, and fails exactly when there are fewer. */
  lemma DrawTakesFirstAccepted(s: seq<byte>, n: nat)
    ensures Draw(s, n).Dry? <==> |Accepted(s)| < n
    ensures Draw(s, n).Drawn? ==>
              var d := Draw(s, n);
              && d.text == Image(Accepted(s)[..n])
              && |d.rest| <= |s| && d.rest == s[|s| - |d.rest|..]
              && |Accepted(s[..|s| - |d.rest|])| == n
              && forall k :: 0 <= k < |s| - |d.rest| ==> |Accepted(s[..k])| < n
  {
    hide Draw, Image;
    DrawFailsIff(s, n);
    if Draw(s, n).Drawn? {
      DrawnText(s, n);
      DrawnRest(s, n);
    }
  }

  function Prefixed(text: string, d: Drawn): Drawn {
    if d.Dry? then Dry else Drawn(text + d.text, d.rest)
  }

  /** `generatePrefixedOpaqueToken`: fills a buffer position by position, redrawing rejected bytes. */
  method GeneratePrefixedOpaqueToken(reader: RandomReader, prefix: string, length: int) returns (r: Option<string>)
    modifies reader
    ensures length <= 0 ==> r == Some(prefix) && reader.rest == old(reader.rest)
    ensures length > 0 ==>
              match Draw(old(reader.rest), length)
              case Dry => r == None && reader.rest == []
              case Drawn(text, rest) => r == Some(prefix + text) && reader.rest == rest
  {
    if length <= 0 {
      return Some(prefix);
    }
    var result := new char[length];
    var index := 0;
    while index < length
      invariant 0 <= index <= length
      invariant Draw(old(reader.rest), length) == Prefixed(result[..index], Draw(reader.rest, length - index))
    {
      ghost var goal := Draw(old(reader.rest), length);
      var accepted: Option<byte> := None;
      while accepted == None
        invariant accepted == None ==> goal == Prefixed(result[..index], Draw(reader.rest, length - index))
        invariant accepted.Some? ==> goal == Prefixed(result[..index] + [TokenChar(accepted.value)], Draw(reader.rest, length - index - 1))
        decreases accepted == None, |reader.rest|
        modifies reader
      {
        ghost var before := reader.rest;
        var b := reader.ReadByte();
        if b.None? {
          return None;
        }
        if b.value < LIMIT {
          accepted := b;
          PrefixedStep(result[..index], before, length - index);
        }
      }
      ghost var done := result[..index];
      result[index] := ALPHABET[accepted.value % |ALPHABET|];
      assert result[..index + 1] == done + [TokenChar(accepted.value)];
      index := index + 1;
    }
    assert result[..length] + "" == result[..];
    return Some(prefix + result[..]);
  }

  lemma PrefixedStep(done: string, s: seq<byte>, n: nat)
    requires n > 0 && s != [] && s[0] < LIMIT
    ensures Prefixed(done, Draw(s, n)) == Prefixed(done + [TokenChar(s[0])], Draw(s[1..], n - 1))
  {
    var d := Draw(s[1..], n - 1);
    if d.Drawn? {
      assert done + ([TokenChar(s[0])] + d.text) == done + [TokenChar(s[0])] + d.text;
    }
  }

  datatype TokenOwner = AdminToken | UserToken | OrgToken | OtherToken

  datatype TokenError = TokenNotFound | TokenExpired | InvalidTokenFormat | UnknownTokenType | NoRandomness

  function TokenPrefix(t: TokenOwner): Option<string> {
    match t
    case AdminToken => Some("adm_")
    case UserToken => Some("usr_")
    case OrgToken => Some("org_")
    case OtherToken => None
  }

  function ValidateBearerTokenValue(token: string, t: TokenOwner): Option<TokenError> {
    match TokenPrefix(t)
    case None => Some(UnknownTokenType)
    case Some(prefix) =>
      var trimmed := TrimSpace(token);
      if !HasPrefix(trimmed, prefix) || |trimmed| != |prefix| + TOKEN_BYTES then Some(InvalidTokenFormat)
      else if exists i :: |prefix| <= i < |trimmed| && !IsTokenChar(trimmed[i]) then Some(InvalidTokenFormat)
      else None
  }

  /** The format of a bearer token: the prefix of its owner type and 32 lower-case letters or digits, with white
      space around them ignored. */
  lemma TokenFormatIff(token: string, body: string)
    requires TrimSpace(token)[..if |TrimSpace(token)| < 4 then 0 else 4] + body == TrimSpace(token)
    ensures var head := TrimSpace(token)[..if |TrimSpace(token)| < 4 then 0 else 4];
            var bodyOK := |body| == 32 && forall i :: 0 <= i < 32 ==> 'a' <= body[i] <= 'z' || '0' <= body[i] <= '9';
            && (ValidateBearerTokenValue(token, AdminToken) == None <==> head == "adm_" && bodyOK)
            && (ValidateBearerTokenValue(token, UserToken) == None <==> head == "usr_" && bodyOK)
            && (ValidateBearerTokenValue(token, OrgToken) == None <==> head == "org_" && bodyOK)
            && ValidateBearerTokenValue(token, OtherToken) == Some(UnknownTokenType)
            && (forall t: TokenOwner :: t != OtherToken ==> ValidateBearerTokenValue(token, t) in [None, Some(InvalidTokenFormat)])
  {
    hide TrimSpace;
    var trimmed := TrimSpace(token);
    FormatOf(trimmed, "adm_", body);
    FormatOf(trimmed, "usr_", body);
    FormatOf(trimmed, "org_", body);
  }

  lemma FormatOf(trimmed: string, prefix: string, body: string)
    requires |prefix| == 4 && trimmed[..if |trimmed| < 4 then 0 else 4] + body == trimmed
    ensures (HasPrefix(trimmed, prefix) && |trimmed| == |prefix| + TOKEN_BYTES
             && !(exists i :: |prefix| <= i < |trimmed| && !IsTokenChar(trimmed[i])))
            <==> && trimmed[..if |trimmed| < 4 then 0 else 4] == prefix
                 && |body| == 32 && forall i :: 0 <= i < 32 ==> 'a' <= body[i] <= 'z' || '0' <= body[i] <= '9'
  {
    if |trimmed| >= 4 {
      assert forall i :: 4 <= i < |trimmed| ==> trimmed[i] == body[i - 4];
      assert forall i :: 0 <= i < |body| ==> body[i] == trimmed[i + 4];
      assert HasPrefix(trimmed, prefix) <==> trimmed[..4] == prefix;
    }
  }

  lemma DrawnIsTokenText(s: seq<byte>, n: nat)
    requires Draw(s, n).Drawn?
    ensures |Draw(s, n).text| == n
    ensures forall i :: 0 <= i < n ==> IsTokenChar(Draw(s, n).text[i])
  {
    hide Draw, Accepted;
    DrawnText(s, n);
  }

  /** A generated value passes the format check of its own kind and fails the check of every other. */
  lemma GeneratedValueIsOfOneKind(s: seq<byte>, t: TokenOwner, other: TokenOwner)
    requires TokenPrefix(t).Some? && Draw(s, TOKEN_BYTES).Drawn?
    ensures var value := TokenPrefix(t).value + Draw(s, TOKEN_BYTES).text;
            ValidateBearerTokenValue(value, other) == None <==> other == t
  {
    DrawnIsTokenText(s, TOKEN_BYTES);
    var prefix := TokenPrefix(t).value;
    var value := prefix + Draw(s, TOKEN_BYTES).text;
    assert Trimmed(value);
    assert value[..4] == prefix;
    if TokenPrefix(other).Some? {
      assert HasPrefix(value, TokenPrefix(other).value) <==> value[..4] == TokenPrefix(other).value;
      assert prefix[0] == 'a' || prefix[0] == 'u' || prefix[0] == 'o';
    }
  }
}
