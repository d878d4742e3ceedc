/**
  The two identity types of the fee manager and their validating
  conversions from raw strings: a BLS public key (98 bytes) and an Eth1
  payout address (40 bytes). Each conversion checks the byte length, then
  the literal "0x" prefix, and on success wraps the lowercased input.
*/
module Mev {
  import opened RustStr

  /**
    What a call to a `try_from` does: return `Ok`, return `Err` with its
    fixed message, or panic (the `unwrap` on the prefix slice).
  */
  datatype Outcome<T> = Ok(value: T) | Err(error: string) | Panic

  const PUBKEY_LEN: nat := 98
  const ADDRESS_LEN: nat := 40
  const PUBKEY_LENGTH_ERROR := "The length of pubkey should be 98"
  /** The address conversion reuses the pubkey wording, with 40 for 98. */
  const ADDRESS_LENGTH_ERROR := "The length of pubkey should be 40"
  const PREFIX_ERROR := "Pubkey should start from '0x'"

  datatype BlsPubkey = BlsPubkey(key: string)
  datatype Eth1Address = Eth1Address(address: string)

  /**
    The check sequence every `try_from` runs: byte length, then the first
    two bytes (panicking when byte 2 splits a character), then lowercase.
  */
  function Validate(value: string, expected: nat, lengthError: string): (r: Outcome<string>)
    ensures r.Err? ==> r.error == lengthError || r.error == PREFIX_ERROR
    ensures r.Ok? ==> ByteLen(value) == expected && StartsWith0x(r.value) && Lower(r.value) == r.value
  {
    GetPrefix2Is0x(value);
    LowerIdempotent(value);
    if ByteLen(value) != expected then Err(lengthError)
    else match GetPrefix2(value)
      case None => Panic
      case Some(head) => if head != "0x" then Err(PREFIX_ERROR) else Ok(Lower(value))
  }

  /** The outcome of `Validate`, described without its control flow. */
  lemma ValidateCases(value: string, expected: nat, lengthError: string)
    ensures ByteLen(value) != expected ==> Validate(value, expected, lengthError) == Err(lengthError)
    ensures ByteLen(value) == expected ==>
      (Validate(value, expected, lengthError) == Panic <==> !IsCharBoundary(value, 2))
    ensures ByteLen(value) == expected ==>
      (Validate(value, expected, lengthError).Ok? <==> StartsWith0x(value))
    ensures ByteLen(value) == expected && IsCharBoundary(value, 2) && !StartsWith0x(value) ==>
      Validate(value, expected, lengthError) == Err(PREFIX_ERROR)
    ensures Validate(value, expected, lengthError).Ok? ==>
      Validate(value, expected, lengthError).value == Lower(value)
  {
    GetPrefix2Spec(value);
    GetPrefix2Is0x(value);
  }

  /** `impl TryFrom<&str> for BLSPubkey`. */
  function BlsPubkeyFromStr(value: string): (r: Outcome<BlsPubkey>)
    ensures r == Err(PUBKEY_LENGTH_ERROR) <==> ByteLen(value) != PUBKEY_LEN
    ensures r == Err(PREFIX_ERROR) <==>
      ByteLen(value) == PUBKEY_LEN && IsCharBoundary(value, 2) && !StartsWith0x(value)
    ensures r == Panic <==> ByteLen(value) == PUBKEY_LEN && !IsCharBoundary(value, 2)
    ensures r.Ok? <==> ByteLen(value) == PUBKEY_LEN && StartsWith0x(value)
    ensures r.Ok? ==> r.value.key == Lower(value)
  {
    ValidateCases(value, PUBKEY_LEN, PUBKEY_LENGTH_ERROR);
    match Validate(value, PUBKEY_LEN, PUBKEY_LENGTH_ERROR)
    case Ok(s) => Ok(BlsPubkey(s))
    case Err(e) => Err(e)
    case Panic => Panic
  }

  /** `impl TryFrom<&str> for Eth1Address`. */
  function Eth1AddressFromStr(value: string): (r: Outcome<Eth1Address>)
    ensures r == Err(ADDRESS_LENGTH_ERROR) <==> ByteLen(value) != ADDRESS_LEN
    ensures r == Err(PREFIX_ERROR) <==>
      ByteLen(value) == ADDRESS_LEN && IsCharBoundary(value, 2) && !StartsWith0x(value)
    ensures r == Panic <==> ByteLen(value) == ADDRESS_LEN && !IsCharBoundary(value, 2)
    ensures r.Ok? <==> ByteLen(value) == ADDRESS_LEN && StartsWith0x(value)
    ensures r.Ok? ==> r.value.address == Lower(value)
  {
    ValidateCases(value, ADDRESS_LEN, ADDRESS_LENGTH_ERROR);
    match Validate(value, ADDRESS_LEN, ADDRESS_LENGTH_ERROR)
    case Ok(s) => Ok(Eth1Address(s))
    case Err(e) => Err(e)
    case Panic => Panic
  }

  /**
    `impl TryFrom<String> for Eth1Address`: a separate copy of the `&str`
    conversion in the source, taking an owned string.
  */
  function Eth1AddressFromString(value: string): (r: Outcome<Eth1Address>)
    ensures r.Ok? <==> ByteLen(value) == ADDRESS_LEN && StartsWith0x(value)
    ensures r.Ok? ==> r.value.address == Lower(value)
  {
    ValidateCases(value, ADDRESS_LEN, ADDRESS_LENGTH_ERROR);
    if ByteLen(value) != ADDRESS_LEN then Err(ADDRESS_LENGTH_ERROR)
    else match GetPrefix2(value)
      case None => Panic
      case Some(head) => if head != "0x" then Err(PREFIX_ERROR) else Ok(Eth1Address(Lower(value)))
  }

  /** The owned-string and borrowed-string conversions agree on every input. */
  lemma Eth1AddressConversionsAgree(value: string)
    ensures Eth1AddressFromString(value) == Eth1AddressFromStr(value)
  {
  }

  /** `impl Display for Eth1Address`: writes the stored string. */
  function Display(a: Eth1Address): string
  {
    a.address
  }

  /** A value of the type exists only as the result of a successful conversion. */
  ghost predicate IsPubkey(k: BlsPubkey) {
    exists raw :: BlsPubkeyFromStr(raw) == Ok(k)
  }

  ghost predicate IsAddress(a: Eth1Address) {
    exists raw :: Eth1AddressFromStr(raw) == Ok(a)
  }

  /** Every accepted key starts with "0x" and holds no upper-case ASCII letter. */
  lemma AcceptedPubkeyIsNormalized(k: BlsPubkey)
    requires IsPubkey(k)
    ensures StartsWith0x(k.key) && Lower(k.key) == k.key
  {
    var raw :| BlsPubkeyFromStr(raw) == Ok(k);
    LowerIdempotent(raw);
  }

  lemma AcceptedAddressIsNormalized(a: Eth1Address)
    requires IsAddress(a)
    ensures StartsWith0x(a.address) && Lower(a.address) == a.address
  {
    var raw :| Eth1AddressFromStr(raw) == Ok(a);
    LowerIdempotent(raw);
  }

  /**
    The text written for an accepted address is normalized, and when it
    keeps the 40-byte length it converts back to the same address.
  */
  lemma DisplayIsNormalized(a: Eth1Address)
    requires IsAddress(a)
    ensures StartsWith0x(Display(a)) && Lower(Display(a)) == Display(a)
    ensures ByteLen(Display(a)) == ADDRESS_LEN ==> Eth1AddressFromStr(Display(a)) == Ok(a)
  {
    AcceptedAddressIsNormalized(a);
    GetPrefix2Is0x(a.address);
  }

  /**
    Validating an already-normalized ASCII value gives it back unchanged:
    normalization is idempotent.
  */
  lemma ValidateIdempotent(value: string, expected: nat, lengthError: string)
    requires IsAscii(value)
    requires Validate(value, expected, lengthError).Ok?
    ensures var s := Validate(value, expected, lengthError).value;
      |s| == expected && StartsWith0x(s) && IsAscii(s) && Validate(s, expected, lengthError) == Ok(s)
  {
    ValidateCases(value, expected, lengthError);
    var s := Lower(value);
    LowerKeepsAscii(value);
    LowerIdempotent(value);
    ValidateCases(s, expected, lengthError);
  }

  lemma PubkeyNormalizationIdempotent(value: string)
    requires IsAscii(value) && BlsPubkeyFromStr(value).Ok?
    ensures var k := BlsPubkeyFromStr(value).value;
      |k.key| == PUBKEY_LEN && StartsWith0x(k.key) && BlsPubkeyFromStr(k.key) == Ok(k)
  {
    ValidateIdempotent(value, PUBKEY_LEN, PUBKEY_LENGTH_ERROR);
  }

  lemma AddressNormalizationIdempotent(value: string)
    requires IsAscii(value) && Eth1AddressFromStr(value).Ok?
    ensures var a := Eth1AddressFromStr(value).value;
      |a.address| == ADDRESS_LEN && StartsWith0x(a.address) && Eth1AddressFromStr(a.address) == Ok(a)
  {
    ValidateIdempotent(value, ADDRESS_LEN, ADDRESS_LENGTH_ERROR);
  }

  /**
    Displaying an address and converting the text back gives the same
    address: `Display` and `Eth1AddressFromStr` are inverse on ASCII input.
  */
  lemma DisplayRoundTrip(value: string)
    requires IsAscii(value) && Eth1AddressFromStr(value).Ok?
    ensures Display(Eth1AddressFromStr(value).value) == Lower(value)
    ensures Eth1AddressFromStr(Display(Eth1AddressFromStr(value).value)) == Eth1AddressFromStr(value)
  {
    AddressNormalizationIdempotent(value);
  }

  /**
    Letter case does not matter beyond the prefix: two inputs that differ
    only in ASCII case and share their first two characters have the same
    outcome, whatever it is.
  */
  lemma ValidateIgnoresCase(a: string, b: string, expected: nat, lengthError: string)
    requires SameUpToAsciiCase(a, b)
    requires |a| < 2 || a[..2] == b[..2]
    ensures Validate(a, expected, lengthError) == Validate(b, expected, lengthError)
  {
    CaseFoldKeepsByteLen(a, b);
    LowerEqualWhenSameUpToAsciiCase(a, b);
    if |a| >= 2 {
      assert a[0] == b[0] && a[1] == b[1];
      assert a[..1] == b[..1];
    } else if ByteLen(a) == expected {
      assert GetPrefix2(a) == GetPrefix2(b) by {
        if |a| == 1 && !IsAsciiChar(a[0]) {
          assert LowerChar(a[0]) == a[0];
          assert !IsAsciiChar(b[0]) && LowerChar(b[0]) == b[0];
          assert a[..1] == b[..1];
        }
      }
    }
  }

  lemma PubkeyIgnoresCase(a: string, b: string)
    requires SameUpToAsciiCase(a, b)
    requires |a| < 2 || a[..2] == b[..2]
    ensures BlsPubkeyFromStr(a) == BlsPubkeyFromStr(b)
  {
    ValidateIgnoresCase(a, b, PUBKEY_LEN, PUBKEY_LENGTH_ERROR);
  }

  lemma AddressIgnoresCase(a: string, b: string)
    requires SameUpToAsciiCase(a, b)
    requires |a| < 2 || a[..2] == b[..2]
    ensures Eth1AddressFromStr(a) == Eth1AddressFromStr(b)
  {
    ValidateIgnoresCase(a, b, ADDRESS_LEN, ADDRESS_LENGTH_ERROR);
  }

  /** Two accepted keys that differ only in ASCII letter case are the same key. */
  lemma AcceptedPubkeysIgnoreCase(a: string, b: string)
    requires SameUpToAsciiCase(a, b)
    requires BlsPubkeyFromStr(a).Ok? && BlsPubkeyFromStr(b).Ok?
    ensures BlsPubkeyFromStr(a) == BlsPubkeyFromStr(b)
  {
    PubkeyIgnoresCase(a, b);
  }

  lemma AcceptedAddressesIgnoreCase(a: string, b: string)
    requires SameUpToAsciiCase(a, b)
    requires Eth1AddressFromStr(a).Ok? && Eth1AddressFromStr(b).Ok?
    ensures Eth1AddressFromStr(a) == Eth1AddressFromStr(b)
  {
    AddressIgnoresCase(a, b);
  }

  /** "0X" is not "0x": the prefix check is case-sensitive. */
  lemma UpperCasePrefixRejected(value: string)
    requires ByteLen(value) == PUBKEY_LEN && |value| >= 2 && value[0] == '0' && value[1] == 'X'
    ensures BlsPubkeyFromStr(value) == Err(PREFIX_ERROR)
  {
    UpperCaseHeadRejected(value, PUBKEY_LEN, PUBKEY_LENGTH_ERROR);
  }

  lemma UpperCaseHeadRejected(value: string, expected: nat, lengthError: string)
    requires ByteLen(value) == expected && |value| >= 2 && value[0] == '0' && value[1] == 'X'
    ensures Validate(value, expected, lengthError) == Err(PREFIX_ERROR)
  {
    HeadIs0X(value);
  }

  lemma HeadIs0X(value: string)
    requires |value| >= 2 && value[0] == '0' && value[1] == 'X'
    ensures GetPrefix2(value) == Some("0X")
  {
    assert value[..2] == "0X";
  }

  /**
    A 98-byte key whose second character needs two bytes (here "0é"
    followed by 95 zeros) makes byte 2 fall inside that character, so the
    conversion panics instead of returning an error.
  */
  lemma PubkeyConversionCanPanic()
    ensures BlsPubkeyFromStr("0\U{e9}" + seq(95, _ => '0')) == Panic
  {
    var tail := seq(95, _ => '0');
    var value := "0\U{e9}" + tail;
    ByteLenConcat("0\U{e9}", tail);
    assert ByteLen("0\U{e9}") == 3;
    assert ByteLen(value) == PUBKEY_LEN;
    assert value[0] == '0' && value[1] == '\U{e9}';
  }

  /**
    The 96 hex digits after the two-character prefix of the keys in the
    unit test `bls_convert`, in four pieces so that the prover can take
    their length piece by piece.
  */
  const TEST_KEY_TAIL := "aff3071a4bff828acb8e0c6e" + "0c73aa481162da7b8735fd79"
    + "8c3237bc643ae1aa325d6281" + "abe61ffedaf2eb51b29eaf27"

  lemma TestKeyTailIsAscii()
    ensures IsAscii(TEST_KEY_TAIL) && ByteLen(TEST_KEY_TAIL) == 96
  {
    var c1, c2, c3, c4 := "aff3071a4bff828acb8e0c6e", "0c73aa481162da7b8735fd79",
      "8c3237bc643ae1aa325d6281", "abe61ffedaf2eb51b29eaf27";
    assert IsAscii(c1);
    assert IsAscii(c2);
    assert IsAscii(c3);
    assert IsAscii(c4);
    AsciiConcat(c1, c2);
    AsciiConcat(c1 + c2, c3);
    AsciiConcat(c1 + c2 + c3, c4);
  }

  /** The unit test `bls_convert`, as outcomes of the model. */
  lemma BlsConvertTest()
    ensures BlsPubkeyFromStr("123") == Err(PUBKEY_LENGTH_ERROR)
    ensures BlsPubkeyFromStr("") == Err(PUBKEY_LENGTH_ERROR)
    ensures BlsPubkeyFromStr("0x" + TEST_KEY_TAIL + "1") == Err(PUBKEY_LENGTH_ERROR)
    ensures BlsPubkeyFromStr("1x" + TEST_KEY_TAIL) == Err(PREFIX_ERROR)
    ensures BlsPubkeyFromStr("0b" + TEST_KEY_TAIL) == Err(PREFIX_ERROR)
    ensures BlsPubkeyFromStr("0x" + TEST_KEY_TAIL).Ok?
  {
    TestKeyTailIsAscii();
    ByteLenConcat("0x", TEST_KEY_TAIL);
    ByteLenConcat("1x", TEST_KEY_TAIL);
    ByteLenConcat("0b", TEST_KEY_TAIL);
    ByteLenConcat("0x" + TEST_KEY_TAIL, "1");
    assert ("1x" + TEST_KEY_TAIL)[..2] == "1x";
    assert ("0b" + TEST_KEY_TAIL)[..2] == "0b";
    assert ("0x" + TEST_KEY_TAIL)[..2] == "0x";
  }
}
