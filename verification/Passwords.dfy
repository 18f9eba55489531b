/** The printed form of password hashes, and hashing and checking a password through it. */
module Passwords {
  import opened GoStrings
  import opened Wrappers
  import opened Base64

  const ARGON_VERSION: nat := 19
  const ARGON_MEMORY: nat := 64 * 1024
  const ARGON_TIME: nat := 3
  const ARGON_THREADS: nat := 4
  const ARGON_KEY_LEN: nat := 32
  const ARGON_SALT_LEN: nat := 16

  /** The `%d` of a format string. */
  function Decimal(n: nat): string {
    if n < 10 then [(n + '0' as int) as char] else Decimal(n / 10) + [(n % 10 + '0' as int) as char]
  }

  lemma {:induction false} DecimalHasNoDollar(n: nat)
    ensures '$' !in Decimal(n)
  {
    if n >= 10 { DecimalHasNoDollar(n / 10); }
  }

  function VersionField(): string { "v=" + Decimal(ARGON_VERSION) }

  function CostField(): string {
    "m=" + Decimal(ARGON_MEMORY) + ",t=" + Decimal(ARGON_TIME) + ",p=" + Decimal(ARGON_THREADS)
  }

  const ARGON_NAME := "argon2id"

  /** The printed form: five fields, each behind a dollar sign. */
  function Layout(name: string, version: string, cost: string, salt: string, hash: string): string {
    "$" + name + "$" + version + "$" + cost + "$" + salt + "$" + hash
  }

  function EncodeArgon2Hash(salt: seq<byte>, hash: seq<byte>): string {
    Layout(ARGON_NAME, VersionField(), CostField(), Encode(Standard, salt), Encode(Standard, hash))
  }

  function ParseFields(parts: seq<string>, name: string, version: string,
                       cost: string): Option<(seq<byte>, seq<byte>)> {
    if |parts| != 6 || parts[1] != name || parts[2] != version || parts[3] != cost then None
    else
      match (Decode(Standard, parts[4]), Decode(Standard, parts[5]))
      case (Some(salt), Some(hash)) => Some((salt, hash))
      case _ => None
  }

  function DecodeArgon2Hash(text: string): Option<(seq<byte>, seq<byte>)> {
    ParseFields(Split(text, '$'), ARGON_NAME, VersionField(), CostField())
  }

  lemma FieldsHaveNoDollar()
    ensures '$' !in ARGON_NAME && '$' !in VersionField() && '$' !in CostField()
  {
    DecimalHasNoDollar(ARGON_VERSION);
    DecimalHasNoDollar(ARGON_MEMORY);
    DecimalHasNoDollar(ARGON_TIME);
    DecimalHasNoDollar(ARGON_THREADS);
  }

  lemma SplitSnoc(front: string, field: string)
    requires '$' !in field
    ensures Split(front + "$" + field, '$') == Split(front, '$') + [field]
  {
    SplitWithout(field, '$');
    SplitConcat(front, field, '$');
  }

  lemma SixFields(name: string, version: string, cost: string, salt: string, hash: string)
    requires '$' !in name && '$' !in version && '$' !in cost && '$' !in salt && '$' !in hash
    ensures Split(Layout(name, version, cost, salt, hash), '$') == ["", name, version, cost, salt, hash]
  {
    var empty: string := "";
    assert "$" + name == empty + "$" + name;
    SplitSnoc(empty, name);
    SplitSnoc("$" + name, version);
    SplitSnoc("$" + name + "$" + version, cost);
    SplitSnoc("$" + name + "$" + version + "$" + cost, salt);
    SplitSnoc("$" + name + "$" + version + "$" + cost + "$" + salt, hash);
  }

  lemma LayoutParses(name: string, version: string, cost: string, salt: seq<byte>, hash: seq<byte>)
    requires '$' !in name && '$' !in version && '$' !in cost
    ensures ParseFields(Split(Layout(name, version, cost, Encode(Standard, salt), Encode(Standard, hash)), '$'), name, version, cost)
            == Some((salt, hash))
  {
    EncodeCharacters(Standard, salt);
    EncodeCharacters(Standard, hash);
    SixFields(name, version, cost, Encode(Standard, salt), Encode(Standard, hash));
    DecodeUndoesEncode(Standard, salt);
    DecodeUndoesEncode(Standard, hash);
  }

  /** The printer and the reader of password hashes undo each other on every salt and hash. */
  lemma DecodeUndoesArgon2(salt: seq<byte>, hash: seq<byte>)
    ensures DecodeArgon2Hash(EncodeArgon2Hash(salt, hash)) == Some((salt, hash))
  {
    FieldsHaveNoDollar();
    LayoutParses(ARGON_NAME, VersionField(), CostField(), salt, hash);
  }

  /** A printed hash starts with the algorithm, version and costs. */
  lemma PrintedHead()
    ensures VersionField() == "v=19" && CostField() == "m=65536,t=3,p=4" && ARGON_NAME == "argon2id"
    ensures ARGON_SALT_LEN == 16 && ARGON_KEY_LEN == 32
  {
    assert Decimal(1) == "1" && Decimal(3) == "3" && Decimal(4) == "4" && Decimal(6) == "6";
    hide Decimal;
    DecimalStep(19);
    DecimalStep(65536);
    DecimalStep(6553);
    DecimalStep(655);
    DecimalStep(65);
  }

  lemma DecimalStep(n: nat)
    requires n >= 10
    ensures Decimal(n) == Decimal(n / 10) + [(n % 10 + '0' as int) as char]
  {
  }

  predicate NoDollar(s: string) { '$' !in s }

  /** A text reads as a hash exactly when it is a printed head, behind anything without a dollar sign, and two fields
      that decode. */
  lemma DecodeArgon2Iff(text: string, salt: seq<byte>, hash: seq<byte>)
    ensures DecodeArgon2Hash(text) == Some((salt, hash)) <==>
              exists lead, salt64, hash64 :: ReadsAs(text, lead, salt64, hash64)
                && Decode(Standard, salt64) == Some(salt) && Decode(Standard, hash64) == Some(hash)
  {
    hide Decode, Decimal;
    FieldsHaveNoDollar();
    hide VersionField, CostField, Split;
    var parts := Split(text, '$');
    SplitJoins(text, '$');
    if DecodeArgon2Hash(text) == Some((salt, hash)) {
      JoinSix(parts);
      assert ReadsAs(text, parts[0], parts[4], parts[5]);
    }
    if lead, salt64, hash64 :| ReadsAs(text, lead, salt64, hash64)
                               && Decode(Standard, salt64) == Some(salt) && Decode(Standard, hash64) == Some(hash) {
      SixFieldsAfter(lead, ARGON_NAME, VersionField(), CostField(), salt64, hash64);
    }
  }

  predicate ReadsAs(text: string, lead: string, salt64: string, hash64: string) {
    && NoDollar(lead) && NoDollar(salt64) && NoDollar(hash64)
    && text == lead + Layout(ARGON_NAME, VersionField(), CostField(), salt64, hash64)
  }

  lemma JoinSix(parts: seq<string>)
    requires |parts| == 6
    ensures Join(parts, '$') == parts[0] + Layout(parts[1], parts[2], parts[3], parts[4], parts[5])
  {
    JoinFrom(parts, 4);
    JoinFrom(parts, 3);
    JoinFrom(parts, 2);
    JoinFrom(parts, 1);
    JoinFrom(parts, 0);
    assert parts[0..] == parts && parts[5..] == [parts[5]] && Join([parts[5]], '$') == parts[5];
    hide Join;
    LayoutNests(parts[1], parts[2], parts[3], parts[4], parts[5]);
    hide Layout;
    Hang(parts[0], "", Join(parts[1..], '$'));
  }

  lemma Hang(before: string, field: string, after: string)
    ensures before + field + "$" + after == before + (field + "$" + after)
  {
  }

  lemma LayoutNests(name: string, version: string, cost: string, salt: string, hash: string)
    ensures Layout(name, version, cost, salt, hash)
            == "$" + (name + "$" + (version + "$" + (cost + "$" + (salt + "$" + hash))))
  {
    var saltOn := salt + "$" + hash;
    var costOn := cost + "$" + saltOn;
    var versionOn := version + "$" + costOn;
    Hang("$" + name + "$" + version + "$" + cost + "$", salt, hash);
    Hang("$" + name + "$" + version + "$", cost, saltOn);
    Hang("$" + name + "$", version, costOn);
    Hang("$", name, versionOn);
  }

  lemma JoinFrom(parts: seq<string>, i: nat)
    requires i + 1 < |parts|
    ensures Join(parts[i..], '$') == parts[i] + "$" + Join(parts[i + 1..], '$')
  {
    assert parts[i..][1..] == parts[i + 1..];
  }

  lemma SixFieldsAfter(lead: string, name: string, version: string, cost: string, salt: string, hash: string)
    requires '$' !in lead && '$' !in name && '$' !in version && '$' !in cost && '$' !in salt && '$' !in hash
    ensures Split(lead + Layout(name, version, cost, salt, hash), '$') == [lead, name, version, cost, salt, hash]
  {
    var parts := [lead, name, version, cost, salt, hash];
    JoinSix(parts);
    JoinSplits(parts, '$');
  }

  datatype BcryptAnswer = BcryptMatch | BcryptMismatch | BcryptMalformed

  /** The foreign hash functions: `idKey` takes the password, the salt and the wanted length. */
  datatype Crypto = Crypto(idKey: (string, seq<byte>, nat) -> seq<byte>, bcrypt: (string, string) -> BcryptAnswer)

  ghost predicate KeyLengths(c: Crypto) {
    forall p: string, s: seq<byte>, n: nat :: |c.idKey(p, s, n)| == n
  }

  datatype HashAnswer = Hashed(text: string) | InvalidPassword | NoRandomness
  datatype VerifyAnswer = Checked(ok: bool, rehashHint: bool) | Malformed

  predicate Acceptable(password: string) {
    password != "" && TrimSpace(password) == password
  }

  lemma AcceptableIff(password: string)
    ensures Acceptable(password) <==> password != "" && !IsSpace(password[0]) && !IsSpace(password[|password| - 1])
  {
    hide TrimSpace;
  }

  /** `HashPassword`; `random` is what the salt reader still holds. */
  function HashPassword(c: Crypto, password: string, random: seq<byte>): HashAnswer {
    if !Acceptable(password) then InvalidPassword
    else if |random| < ARGON_SALT_LEN then NoRandomness
    else
      var salt := random[..ARGON_SALT_LEN];
      Hashed(EncodeArgon2Hash(salt, c.idKey(password, salt, ARGON_KEY_LEN)))
  }

  function VerifyPassword(c: Crypto, text: string, password: string): VerifyAnswer {
    if !Acceptable(password) then Checked(false, false)
    else if HasPrefix(text, "$2") then
      match c.bcrypt(text, password)
      case BcryptMatch => Checked(true, true)
      case BcryptMismatch => Checked(false, false)
      case BcryptMalformed => Malformed
    else
      match DecodeArgon2Hash(text)
      case None => Malformed
      case Some((salt, expected)) => Checked(c.idKey(password, salt, |expected|) == expected, false)
  }

  /** Hashing refuses blank-edged passwords, fails on fewer than 16 random bytes, and otherwise prints those bytes and
      the 32-byte key under them. */
  lemma HashPasswordIs(c: Crypto, password: string, random: seq<byte>)
    ensures HashPassword(c, password, random) == InvalidPassword <==> !Acceptable(password)
    ensures HashPassword(c, password, random) == NoRandomness <==> Acceptable(password) && |random| < 16
    ensures Acceptable(password) && |random| >= 16 ==>
              HashPassword(c, password, random).Hashed?
              && DecodeArgon2Hash(HashPassword(c, password, random).text) == Some((random[..16], c.idKey(password, random[..16], 32)))
  {
    hide Acceptable, EncodeArgon2Hash, DecodeArgon2Hash;
    if |random| >= 16 { DecodeUndoesArgon2(random[..16], c.idKey(password, random[..16], 32)); }
  }

  /** Checking a password, case by case: only a bcrypt match asks for a new hash. */
  lemma VerifyPasswordIs(c: Crypto, text: string, password: string)
    ensures var answer := VerifyPassword(c, text, password);
            && (!Acceptable(password) ==> answer == Checked(false, false))
            && (Acceptable(password) && "$2" <= text ==>
                  && (c.bcrypt(text, password).BcryptMatch? ==> answer == Checked(true, true))
                  && (c.bcrypt(text, password).BcryptMismatch? ==> answer == Checked(false, false))
                  && (c.bcrypt(text, password).BcryptMalformed? ==> answer == Malformed))
            && (Acceptable(password) && !("$2" <= text) && DecodeArgon2Hash(text) == None ==> answer == Malformed)
            && (Acceptable(password) && !("$2" <= text) && DecodeArgon2Hash(text).Some? ==>
                  var (salt, key) := DecodeArgon2Hash(text).value;
                  answer == Checked(c.idKey(password, salt, |key|) == key, false))
  {
    hide Acceptable, DecodeArgon2Hash;
  }

  /** A hash produced for one password accepts exactly the acceptable passwords with the same key
      under the stored salt; in particular the password itself, and never with a rehash hint. */
  lemma HashAcceptsExactly(c: Crypto, password: string, random: seq<byte>, candidate: string)
    requires KeyLengths(c)
    requires HashPassword(c, password, random).Hashed?
    ensures var salt := random[..ARGON_SALT_LEN];
            VerifyPassword(c, HashPassword(c, password, random).text, candidate)
            == Checked(Acceptable(candidate) && c.idKey(candidate, salt, ARGON_KEY_LEN) == c.idKey(password, salt, ARGON_KEY_LEN), false)
    ensures VerifyPassword(c, HashPassword(c, password, random).text, password) == Checked(true, false)
  {
    var salt := random[..ARGON_SALT_LEN];
    var key := c.idKey(password, salt, ARGON_KEY_LEN);
    DecodeUndoesArgon2(salt, key);
    NotBcrypt(salt, key);
    VerifyByKey(c, EncodeArgon2Hash(salt, key), salt, key, candidate);
    VerifyByKey(c, EncodeArgon2Hash(salt, key), salt, key, password);
  }

  lemma NotBcrypt(salt: seq<byte>, hash: seq<byte>)
    ensures !HasPrefix(EncodeArgon2Hash(salt, hash), "$2")
  {
    assert EncodeArgon2Hash(salt, hash)[1] == 'a';
  }

  lemma VerifyByKey(c: Crypto, text: string, salt: seq<byte>, key: seq<byte>, candidate: string)
    requires !HasPrefix(text, "$2") && DecodeArgon2Hash(text) == Some((salt, key))
    ensures VerifyPassword(c, text, candidate)
            == Checked(Acceptable(candidate) && c.idKey(candidate, salt, |key|) == key, false)
  {
  }
}
