/**
 Coinbase OP_RETURN commitments: the CORE and exSat decoders, the exact encodings they accept,
 and the output Core DAO's own, laxer parser takes.
 */
module Commitments {
  import opened Prelude

  type Byte = b: int | 0 <= b < 256
  type Script = seq<Byte>

  const OP_RETURN: Byte := 0x6a
  const OP_PUSHDATA1: Byte := 0x4c
  const OP_PUSHDATA2: Byte := 0x4d
  const OP_PUSHDATA4: Byte := 0x4e
  /** The ASCII bytes of CORE and EXSAT. */
  const CORE_MAGIC: Script := [0x43, 0x4f, 0x52, 0x45]
  const EXSAT_MAGIC: Script := [0x45, 0x58, 0x53, 0x41, 0x54]
  const SUPPORTED_VERSION: Byte := 1
  const DIRECT_MAGIC_AT := 2
  /** OP_RETURN, a 45-byte push, CORE, version 1. */
  const CORE_HEADER: Script := [0x6a, 0x2d, 0x43, 0x4f, 0x52, 0x45, 0x01]
  const CORE_SCRIPT_LEN := 47
  const CORE_WITH_BINDING_HASH_LEN := 79
  const EXSAT_VERSION_AT := 7
  const EXSAT_MAX_ACCOUNT_LEN := 12
  const EXSAT_ALPHABET := "abcdefghijklmnopqrstuvwxyz12345."
  const VOUT_LIMIT := 0x1_0000_0000

  datatype Protocol = Core | Exsat

  datatype Payload =
    | CorePayload(validator: seq<Byte>, rewardAddress: seq<Byte>, bindingHash: Option<seq<Byte>>)
    | ExsatPayload(account: string)

  datatype MalformedReason =
    | WrongPushLength
    | NestedHeader
    | TrailingBytes
    | Truncated
    | AccountByteOutOfRange
    | InvalidAccount

  datatype DecodeStatus =
    | Valid(payload: Payload)
    | Malformed(reason: MalformedReason)
    | UnsupportedVersion(version: Byte)

  datatype Commitment = Commitment(
    vout: nat, protocol: Protocol, script: Script, status: DecodeStatus, upstreamSelected: Option<bool>)

  // ----- Decoding one script -----

  /** `magic` stands in `script` at byte `at`. */
  predicate StandsAt(script: Script, at: nat, magic: Script) {
    at + |magic| <= |script| && script[at..at + |magic|] == magic
  }

  function PushdataMagicAt(opcode: Byte): Option<nat> {
    if opcode == OP_PUSHDATA1 then Some(3)
    else if opcode == OP_PUSHDATA2 then Some(4)
    else if opcode == OP_PUSHDATA4 then Some(6)
    else None
  }

  function RecognizeAt(script: Script, at: nat): Option<(Protocol, nat)> {
    if StandsAt(script, at, EXSAT_MAGIC) then Some((Exsat, at + |EXSAT_MAGIC|))
    else if StandsAt(script, at, CORE_MAGIC) then Some((Core, at + |CORE_MAGIC|))
    else None
  }

  /** The protocol whose magic starts the first push, and where its version byte is. */
  function Recognize(script: Script): Option<(Protocol, nat)> {
    if |script| < 2 then None
    else
      var direct := RecognizeAt(script, DIRECT_MAGIC_AT);
      if direct.Some? then direct
      else
        var pushdata := PushdataMagicAt(script[1]);
        if pushdata.None? then None else RecognizeAt(script, pushdata.value)
  }

  function DecodeCore(script: Script, versionAt: nat): Result<Payload, MalformedReason>
    requires versionAt < |script|
  {
    var exact := StandsAt(script, 0, CORE_HEADER);
    if |script| == CORE_SCRIPT_LEN && exact then
      Success(CorePayload(script[7..27], script[27..47], None))
    else if |script| == CORE_WITH_BINDING_HASH_LEN && exact then
      Success(CorePayload(script[7..27], script[27..47], Some(script[47..])))
    else if StandsAt(script, versionAt + 1, CORE_HEADER) then Failure(NestedHeader)
    else if !exact then Failure(WrongPushLength)
    else if |script| < CORE_SCRIPT_LEN then Failure(Truncated)
    else Failure(TrailingBytes)
  }

  function AccountOf(symbols: Script): Option<string> {
    if symbols == [] then Some("")
    else
      var rest := AccountOf(symbols[..|symbols| - 1]);
      var last := symbols[|symbols| - 1];
      if rest.None? || last >= |EXSAT_ALPHABET| then None else Some(rest.value + [EXSAT_ALPHABET[last]])
  }

  predicate EndsWithDot(account: string) {
    account != [] && account[|account| - 1] == '.'
  }

  function DecodeExsat(script: Script, versionAt: nat): Result<Payload, MalformedReason>
    requires 2 <= versionAt < |script|
  {
    if versionAt != EXSAT_VERSION_AT then Failure(WrongPushLength)
    else if script[1] > |script| - 2 then Failure(Truncated)
    else if script[1] < |script| - 2 then Failure(TrailingBytes)
    else
      var symbols := script[versionAt + 1..];
      if symbols == [] || |symbols| > EXSAT_MAX_ACCOUNT_LEN then Failure(InvalidAccount)
      else
        var account := AccountOf(symbols);
        if account.None? then Failure(AccountByteOutOfRange)
        else if EndsWithDot(account.value) then Failure(InvalidAccount)
        else Success(ExsatPayload(account.value))
  }

  function StatusOf(script: Script, protocol: Protocol, versionAt: nat): DecodeStatus
    requires 2 <= versionAt
  {
    if versionAt >= |script| then Malformed(Truncated)
    else if script[versionAt] == SUPPORTED_VERSION then
      var decoded := if protocol.Core? then DecodeCore(script, versionAt) else DecodeExsat(script, versionAt);
      if decoded.Success? then Valid(decoded.value) else Malformed(decoded.error)
    else UnsupportedVersion(script[versionAt])
  }

  predicate IsOpReturn(script: Script) {
    script != [] && script[0] == OP_RETURN
  }

  /** What the decoder says of one output script; `None` when it is no commitment. */
  function Decode(script: Script): Option<DecodeStatus> {
    if !IsOpReturn(script) then None
    else
      var recognized := Recognize(script);
      if recognized.None? then None
      else Some(StatusOf(script, recognized.value.0, recognized.value.1))
  }

  // ----- The encodings -----

  predicate InAlphabet(account: string) {
    forall i :: 0 <= i < |account| ==> account[i] in EXSAT_ALPHABET
  }

  predicate IsExsatAccount(account: string) {
    && 1 <= |account| <= EXSAT_MAX_ACCOUNT_LEN
    && InAlphabet(account)
    && !EndsWithDot(account)
  }

  ghost predicate WellFormed(p: Payload) {
    match p
    case CorePayload(validator, reward, binding) =>
      |validator| == 20 && |reward| == 20 && (binding.Some? ==> |binding.value| == 32)
    case ExsatPayload(account) => IsExsatAccount(account)
  }

  function SymbolOf(c: char): (b: Byte)
    requires c in EXSAT_ALPHABET
    ensures b < |EXSAT_ALPHABET| && EXSAT_ALPHABET[b] == c
  {
    AlphabetLayout();
    if 'a' <= c <= 'z' then c as int - 'a' as int
    else if '1' <= c <= '5' then c as int - '1' as int + 26
    else 31
  }

  function SymbolsOf(account: string): (s: Script)
    requires InAlphabet(account)
    ensures |s| == |account|
  {
    if account == [] then [] else SymbolsOf(account[..|account| - 1]) + [SymbolOf(account[|account| - 1])]
  }

  /** The one script a well-formed payload is declared with. */
  function Encode(p: Payload): Script
    requires WellFormed(p)
  {
    match p
    case CorePayload(validator, reward, binding) =>
      CORE_HEADER + validator + reward + (if binding.Some? then binding.value else [])
    case ExsatPayload(account) =>
      [OP_RETURN, |account| + 6] + EXSAT_MAGIC + [SUPPORTED_VERSION] + SymbolsOf(account)
  }

  /** The alphabet position by position: letters, digits 1 to 5, a dot. */
  lemma AlphabetLayout()
    ensures |EXSAT_ALPHABET| == 32
    ensures forall i :: 0 <= i < 26 ==> EXSAT_ALPHABET[i] as int == 'a' as int + i
    ensures forall i :: 26 <= i < 31 ==> EXSAT_ALPHABET[i] as int == '1' as int + (i - 26)
    ensures EXSAT_ALPHABET[31] == '.'
  {
  }

  // ----- Decoding inverts encoding -----

  lemma SymbolOfPosition(b: Byte)
    requires b < |EXSAT_ALPHABET|
    ensures EXSAT_ALPHABET[b] in EXSAT_ALPHABET && SymbolOf(EXSAT_ALPHABET[b]) == b
  {
    AlphabetLayout();
  }

  lemma LastLetter(account: string)
    requires account != [] && InAlphabet(account)
    ensures var k := |account| - 1;
            && InAlphabet(account[..k]) && account[k] in EXSAT_ALPHABET
            && SymbolsOf(account) == SymbolsOf(account[..k]) + [SymbolOf(account[k])]
  {
    hide EXSAT_ALPHABET, SymbolOf;
  }

  lemma AccountSnoc(symbols: Script, b: Byte)
    requires AccountOf(symbols).Some? && b < |EXSAT_ALPHABET|
    ensures AccountOf(symbols + [b]) == Some(AccountOf(symbols).value + [EXSAT_ALPHABET[b]])
  {
    hide EXSAT_ALPHABET;
    assert (symbols + [b])[..|symbols|] == symbols;
  }

  lemma {:induction false} AccountRoundTrip(account: string)
    requires InAlphabet(account)
    ensures AccountOf(SymbolsOf(account)) == Some(account)
  {
    hide SymbolOf, EXSAT_ALPHABET;
    if account != [] {
      hide AccountOf, SymbolsOf, InAlphabet;
      var k := |account| - 1;
      LastLetter(account);
      AccountRoundTrip(account[..k]);
      AccountSnoc(SymbolsOf(account[..k]), SymbolOf(account[k]));
      assert account == account[..k] + [account[k]];
    }
  }

  lemma LastSymbol(symbols: Script)
    requires symbols != [] && AccountOf(symbols).Some?
    ensures var k := |symbols| - 1;
            && AccountOf(symbols[..k]).Some? && symbols[k] < |EXSAT_ALPHABET|
            && AccountOf(symbols).value == AccountOf(symbols[..k]).value + [EXSAT_ALPHABET[symbols[k]]]
  {
    hide EXSAT_ALPHABET;
  }

  lemma SymbolsSnoc(account: string, c: char)
    requires c in EXSAT_ALPHABET && InAlphabet(account)
    ensures InAlphabet(account + [c])
    ensures SymbolsOf(account + [c]) == SymbolsOf(account) + [SymbolOf(c)]
  {
    hide EXSAT_ALPHABET, SymbolOf;
    assert (account + [c])[..|account|] == account;
  }

  lemma {:induction false} SymbolsRoundTrip(symbols: Script)
    requires AccountOf(symbols).Some?
    ensures var account := AccountOf(symbols).value;
            && |account| == |symbols|
            && InAlphabet(account)
            && SymbolsOf(account) == symbols
  {
    hide SymbolOf, EXSAT_ALPHABET;
    if symbols != [] {
      hide AccountOf, SymbolsOf, InAlphabet;
      var k := |symbols| - 1;
      LastSymbol(symbols);
      SymbolsRoundTrip(symbols[..k]);
      SymbolOfPosition(symbols[k]);
      SymbolsSnoc(AccountOf(symbols[..k]).value, EXSAT_ALPHABET[symbols[k]]);
      assert symbols == symbols[..k] + [symbols[k]];
    }
  }

  lemma CoreEncodingDecodes(p: Payload)
    requires p.CorePayload? && WellFormed(p)
    ensures Decode(Encode(p)) == Some(Valid(p))
  {
    hide DecodeExsat, SymbolsOf;
    var script := Encode(p);
    assert script[0..7] == CORE_HEADER;
    assert script[2..6] == CORE_MAGIC;
    assert script[2..7][0] != EXSAT_MAGIC[0];
    assert script[7..27] == p.validator;
    assert script[27..47] == p.rewardAddress;
    if p.bindingHash.Some? {
      assert script[47..] == p.bindingHash.value;
    }
  }

  lemma ExsatEncodingDecodes(p: Payload)
    requires p.ExsatPayload? && WellFormed(p)
    ensures Decode(Encode(p)) == Some(Valid(p))
  {
    hide DecodeCore, SymbolsOf, AccountOf;
    var script := Encode(p);
    assert script[2..7] == EXSAT_MAGIC;
    assert script[8..] == SymbolsOf(p.account);
    AccountRoundTrip(p.account);
  }

  lemma EncodingDecodes(p: Payload)
    requires WellFormed(p)
    ensures Decode(Encode(p)) == Some(Valid(p))
  {
    hide Decode, Encode, WellFormed;
    if p.CorePayload? {
      CoreEncodingDecodes(p);
    } else {
      ExsatEncodingDecodes(p);
    }
  }

  lemma CoreDecodesOnlyEncodings(script: Script, versionAt: nat)
    requires versionAt < |script| && DecodeCore(script, versionAt).Success?
    ensures var p := DecodeCore(script, versionAt).value; WellFormed(p) && Encode(p) == script
  {
    assert script[0..7] == CORE_HEADER;
    assert script == script[0..7] + script[7..27] + script[27..47] + script[47..];
  }

  lemma ExsatLayout(script: Script)
    requires IsOpReturn(script) && StandsAt(script, DIRECT_MAGIC_AT, EXSAT_MAGIC)
    requires EXSAT_VERSION_AT < |script| && script[EXSAT_VERSION_AT] == SUPPORTED_VERSION && script[1] == |script| - 2
    ensures script == [OP_RETURN, |script[8..]| + 6] + EXSAT_MAGIC + [SUPPORTED_VERSION] + script[8..]
  {
    assert script[2..7] == EXSAT_MAGIC;
    assert script == script[0..2] + script[2..7] + [script[7]] + script[8..];
  }

  lemma ExsatDecodesOnlyEncodings(script: Script)
    requires IsOpReturn(script) && StandsAt(script, DIRECT_MAGIC_AT, EXSAT_MAGIC)
    requires EXSAT_VERSION_AT < |script| && script[EXSAT_VERSION_AT] == SUPPORTED_VERSION
    requires DecodeExsat(script, EXSAT_VERSION_AT).Success?
    ensures var p := DecodeExsat(script, EXSAT_VERSION_AT).value; WellFormed(p) && Encode(p) == script
  {
    hide AccountOf, SymbolsOf, EXSAT_ALPHABET, StandsAt;
    SymbolsRoundTrip(script[8..]);
    ExsatLayout(script);
  }

  lemma ExsatRecognizedDirectly(script: Script)
    requires Recognize(script) == Some((Exsat, EXSAT_VERSION_AT))
    ensures StandsAt(script, DIRECT_MAGIC_AT, EXSAT_MAGIC)
  {
  }

  /** A script decodes to `Valid(p)` exactly when it is the one encoding of the well-formed `p`. */
  lemma ValidExactlyEncodings(script: Script, p: Payload)
    ensures Decode(script) == Some(Valid(p)) <==> WellFormed(p) && script == Encode(p)
  {
    if Decode(script) == Some(Valid(p)) {
      var (protocol, versionAt) := Recognize(script).value;
      if protocol.Core? {
        CoreDecodesOnlyEncodings(script, versionAt);
      } else {
        ExsatRecognizedDirectly(script);
        ExsatDecodesOnlyEncodings(script);
      }
    }
    if WellFormed(p) && script == Encode(p) {
      EncodingDecodes(p);
    }
  }

  // ----- What a CORE near miss means -----

  function Zeros(n: nat): (z: Script)
    ensures |z| == n
  {
    seq(n, _ => 0)
  }

  lemma TruncatedCompletes(script: Script)
    requires StandsAt(script, 0, CORE_HEADER) && |script| < CORE_SCRIPT_LEN
    ensures exists p :: WellFormed(p) && script < Encode(p)
  {
    var full := script + Zeros(CORE_SCRIPT_LEN - |script|);
    var p := CorePayload(full[7..27], full[27..47], None);
    assert full[0..7] == script[0..7] == CORE_HEADER;
    assert Encode(p) == full;
  }

  lemma TrailingCutsBack(script: Script)
    requires StandsAt(script, 0, CORE_HEADER) && |script| > CORE_SCRIPT_LEN
    ensures exists p :: WellFormed(p) && Encode(p) < script
  {
    var p := CorePayload(script[7..27], script[27..47], None);
    assert script[0..7] == CORE_HEADER;
    assert Encode(p) == script[..47];
  }

  lemma EncodingHead(p: Payload)
    requires WellFormed(p)
    ensures |Encode(p)| >= 7
    ensures p.CorePayload? ==> Encode(p)[0..7] == CORE_HEADER
    ensures p.ExsatPayload? ==> Encode(p)[2..7] == EXSAT_MAGIC
  {
    hide SymbolOf;
  }

  lemma WrongPushIsApart(script: Script, p: Payload)
    requires Recognize(script).Some? && Recognize(script).value.0.Core?
    requires !StandsAt(script, 0, CORE_HEADER)
    requires Recognize(script).value.1 < |script|
    requires WellFormed(p)
    ensures !(Encode(p) <= script) && !(script <= Encode(p))
  {
    EncodingHead(p);
    hide Encode, WellFormed;
    SameHead(script, Encode(p));
  }

  lemma SameHead(a: Script, b: Script)
    requires |a| >= 7 && |b| >= 7
    ensures a <= b || b <= a ==> a[0..7] == b[0..7] && a[2..7] == b[2..7]
  {
    if a <= b || b <= a {
      assert forall i :: 0 <= i < 7 ==> a[i] == b[i];
    }
  }

  ghost predicate IsEncoding(script: Script) {
    exists p :: WellFormed(p) && script == Encode(p)
  }

  /** More bytes would make it an encoding. */
  ghost predicate Completes(script: Script) {
    exists p :: WellFormed(p) && script < Encode(p)
  }

  /** Fewer bytes would make it an encoding. */
  ghost predicate CutsBack(script: Script) {
    exists p :: WellFormed(p) && Encode(p) < script
  }

  lemma CoreHeadedLengths(script: Script)
    requires StandsAt(script, 0, CORE_HEADER)
    ensures IsEncoding(script) <==> |script| == CORE_SCRIPT_LEN || |script| == CORE_WITH_BINDING_HASH_LEN
    ensures |script| < CORE_SCRIPT_LEN ==> Completes(script)
    ensures CutsBack(script) <==> |script| > CORE_SCRIPT_LEN
  {
    forall p | WellFormed(p) && (Encode(p) <= script || script == Encode(p))
      ensures |Encode(p)| == CORE_SCRIPT_LEN || |Encode(p)| == CORE_WITH_BINDING_HASH_LEN
    {
      CoreHeadedIsCore(script, p);
    }
    if |script| < CORE_SCRIPT_LEN {
      TruncatedCompletes(script);
    } else if |script| > CORE_SCRIPT_LEN {
      TrailingCutsBack(script);
    }
    if |script| == CORE_SCRIPT_LEN || |script| == CORE_WITH_BINDING_HASH_LEN {
      ExactIsEncoding(script);
    }
  }

  lemma ExactIsEncoding(script: Script)
    requires StandsAt(script, 0, CORE_HEADER)
    requires |script| == CORE_SCRIPT_LEN || |script| == CORE_WITH_BINDING_HASH_LEN
    ensures IsEncoding(script)
  {
    var p := CorePayload(script[7..27], script[27..47], if |script| == CORE_SCRIPT_LEN then None else Some(script[47..]));
    assert script[0..7] == CORE_HEADER;
    assert WellFormed(p) && script == Encode(p);
  }

  lemma CoreHeadedIsCore(script: Script, p: Payload)
    requires StandsAt(script, 0, CORE_HEADER) && WellFormed(p) && Encode(p) <= script
    ensures p.CorePayload?
    ensures |Encode(p)| == CORE_SCRIPT_LEN || |Encode(p)| == CORE_WITH_BINDING_HASH_LEN
  {
    EncodingHead(p);
    SameHead(Encode(p), script);
    assert script[2..7] == CORE_HEADER[2..7];
    assert CORE_HEADER[2..7][0] != EXSAT_MAGIC[0];
  }

  /**
   What each verdict on a version-1 CORE script means, in terms of the encodings alone: `nested`
   when it is none and a whole CORE header follows its version byte; else truncated exactly when
   it extends to an encoding but contains none, trailing exactly when it contains one, and the
   wrong push exactly when neither.
   */
  lemma CoreNearMisses(script: Script)
    requires IsOpReturn(script) && Recognize(script).Some? && Recognize(script).value.0.Core?
    requires Recognize(script).value.1 < |script| && script[Recognize(script).value.1] == SUPPORTED_VERSION
    ensures var status := Decode(script).value; var nested := StandsAt(script, Recognize(script).value.1 + 1, CORE_HEADER);
            && (status.Valid? <==> IsEncoding(script))
            && (status == Malformed(NestedHeader) <==> !IsEncoding(script) && nested)
            && (status == Malformed(Truncated) <==> !IsEncoding(script) && !nested && Completes(script) && !CutsBack(script))
            && (status == Malformed(TrailingBytes) <==> !IsEncoding(script) && !nested && CutsBack(script))
            && (status == Malformed(WrongPushLength) <==>
                  !IsEncoding(script) && !nested && !Completes(script) && !CutsBack(script))
  {
    hide Recognize, Encode, WellFormed;
    if StandsAt(script, 0, CORE_HEADER) {
      CoreHeadedLengths(script);
    } else {
      forall p | WellFormed(p) ensures !(Encode(p) <= script) && !(script <= Encode(p)) {
        WrongPushIsApart(script, p);
      }
    }
  }

  // ----- The output Core DAO takes -----

  /** `ParsePowerParams`'s test of one output: it ignores the push byte and all after byte 46. */
  predicate CoreDaoParserReads(script: Script) {
    && |script| >= CORE_SCRIPT_LEN
    && script[0] == OP_RETURN
    && script[2..6] == CORE_MAGIC
    && script[6] == SUPPORTED_VERSION
  }

  /** The first output from vout 1 that parser reads. */
  function CoreDaoChoice(outputs: seq<Script>, from: nat): (v: Option<nat>)
    ensures v.Some? ==>
              from <= v.value < |outputs| && v.value > 0 && CoreDaoParserReads(outputs[v.value])
              && forall u :: from <= u < v.value && u > 0 ==> !CoreDaoParserReads(outputs[u])
    ensures v.None? ==> forall u :: from <= u < |outputs| && u > 0 ==> !CoreDaoParserReads(outputs[u])
    decreases |outputs| - from
  {
    if from >= |outputs| then None
    else if from > 0 && CoreDaoParserReads(outputs[from]) then Some(from)
    else CoreDaoChoice(outputs, from + 1)
  }

  /** The decoder's own test, applied to outputs it has recognized as CORE. */
  predicate CoreDaoReads(script: Script) {
    |script| >= CORE_SCRIPT_LEN && script[DIRECT_MAGIC_AT..7] == CORE_HEADER[DIRECT_MAGIC_AT..]
  }

  predicate IsCommitment(script: Script) {
    IsOpReturn(script) && Recognize(script).Some?
  }

  function CommitmentOf(script: Script, vout: nat): Commitment
    requires IsCommitment(script)
  {
    var (protocol, versionAt) := Recognize(script).value;
    Commitment(vout, protocol, script, StatusOf(script, protocol, versionAt),
               if protocol.Core? then Some(false) else None)
  }

  /** No output Core DAO reads is lost or taken for exSat, and the two tests agree on the rest. */
  lemma ReadOutputsAreCoreCommitments(script: Script)
    ensures CoreDaoParserReads(script) <==>
              IsOpReturn(script) && Recognize(script).Some? && Recognize(script).value.0.Core? && CoreDaoReads(script)
  {
    if |script| >= CORE_SCRIPT_LEN {
      assert script[2..7] == script[2..6] + [script[6]];
      assert CORE_HEADER[2..] == CORE_MAGIC + [SUPPORTED_VERSION];
      if script[2..7] == CORE_HEADER[2..] {
        assert script[2..6] == script[2..7][..4];
        assert script[2] == script[2..7][0] == 0x43;
        assert script[6] == script[2..7][4] == 1;
        assert StandsAt(script, 2, CORE_MAGIC);
        assert !StandsAt(script, 2, EXSAT_MAGIC);
      }
    }
  }

  /** `listed` holds one entry for each commitment among the first `n` outputs, in output order. */
  ghost predicate Lists(outputs: seq<Script>, n: nat, listed: seq<Commitment>)
    requires n <= |outputs|
  {
    && (forall i :: 0 <= i < |listed| ==>
          && listed[i].vout < n && listed[i].vout < VOUT_LIMIT
          && IsCommitment(outputs[listed[i].vout])
          && listed[i].(upstreamSelected := None)
             == CommitmentOf(outputs[listed[i].vout], listed[i].vout).(upstreamSelected := None))
    && (forall i, j :: 0 <= i < j < |listed| ==> listed[i].vout < listed[j].vout)
    && (forall v :: 0 <= v < n && v < VOUT_LIMIT && IsCommitment(outputs[v]) ==>
          exists i :: 0 <= i < |listed| && listed[i].vout == v)
  }

  /** The marks before selection: CORE entries unselected, exSat entries without a mark. */
  ghost predicate Unmarked(listed: seq<Commitment>) {
    forall i :: 0 <= i < |listed| ==>
      listed[i].upstreamSelected == if listed[i].protocol.Core? then Some(false) else None
  }

  method ListCommitments(outputs: seq<Script>) returns (listed: seq<Commitment>)
    ensures Lists(outputs, |outputs|, listed) && Unmarked(listed)
  {
    hide Recognize, StatusOf;
    listed := [];
    var v := 0;
    while v < |outputs|
      invariant 0 <= v <= |outputs|
      invariant Lists(outputs, v, listed) && Unmarked(listed)
    {
      if IsOpReturn(outputs[v]) && Recognize(outputs[v]).Some? && v < VOUT_LIMIT {
        ListOneMore(outputs, v, listed, CommitmentOf(outputs[v], v));
        listed := listed + [CommitmentOf(outputs[v], v)];
      }
      v := v + 1;
    }
  }

  /** The decoder's selection test on one entry. */
  predicate TakesEntry(c: Commitment) {
    c.upstreamSelected.Some? && c.vout > 0 && CoreDaoReads(c.script)
  }

  /**
   Every commitment is listed once, in output order, with its decode status; the one entry marked
   selected is the output Core DAO's parser takes, whatever its status, and no exSat entry carries
   a mark at all.
   */
  method DecodeProtocolCommitments(outputs: seq<Script>) returns (commitments: seq<Commitment>)
    ensures Lists(outputs, |outputs|, commitments)
    ensures forall i :: 0 <= i < |commitments| ==>
              commitments[i].upstreamSelected ==
                if commitments[i].protocol.Core? then Some(CoreDaoChoice(outputs, 0) == Some(commitments[i].vout))
                else None
    ensures var choice := CoreDaoChoice(outputs, 0);
            choice.Some? && choice.value < VOUT_LIMIT ==>
              exists i :: 0 <= i < |commitments| && commitments[i].vout == choice.value
                          && commitments[i].upstreamSelected == Some(true)
  {
    hide Recognize, StatusOf, CommitmentOf, CoreDaoReads, CoreDaoParserReads, IsCommitment, CoreDaoChoice;
    commitments := ListCommitments(outputs);
    var k := 0;
    while k < |commitments|
      invariant 0 <= k <= |commitments|
      invariant forall i :: 0 <= i < k ==> !TakesEntry(commitments[i])
    {
      if TakesEntry(commitments[k]) {
        FirstReadIsChoice(outputs, commitments, k);
        MarkKeepsLists(outputs, commitments, k);
        commitments := commitments[k := commitments[k].(upstreamSelected := Some(true))];
        assert commitments[k].upstreamSelected == Some(true);
        return;
      }
      k := k + 1;
    }
    NoReadMeansNoChoice(outputs, commitments);
  }

  lemma ListOneMore(outputs: seq<Script>, n: nat, listed: seq<Commitment>, c: Commitment)
    requires n < |outputs| && n < VOUT_LIMIT && Lists(outputs, n, listed)
    requires IsCommitment(outputs[n]) && c == CommitmentOf(outputs[n], n)
    ensures Lists(outputs, n + 1, listed + [c])
  {
    hide Recognize, StatusOf;
    var more := listed + [c];
    forall v | 0 <= v < n + 1 && v < VOUT_LIMIT && IsCommitment(outputs[v])
      ensures exists i :: 0 <= i < |more| && more[i].vout == v
    {
      if v < n {
        var i :| 0 <= i < |listed| && listed[i].vout == v;
        assert more[i].vout == v;
      } else {
        assert more[|listed|].vout == v;
      }
    }
  }

  lemma MarkKeepsLists(outputs: seq<Script>, listed: seq<Commitment>, k: nat)
    requires Lists(outputs, |outputs|, listed) && k < |listed|
    ensures Lists(outputs, |outputs|, listed[k := listed[k].(upstreamSelected := Some(true))])
  {
    hide CommitmentOf, IsCommitment;
    var marked := listed[k := listed[k].(upstreamSelected := Some(true))];
    assert forall i :: 0 <= i < |listed| ==> marked[i].vout == listed[i].vout;
    forall v | 0 <= v < |outputs| && v < VOUT_LIMIT && IsCommitment(outputs[v])
      ensures exists i :: 0 <= i < |marked| && marked[i].vout == v
    {
      var i :| 0 <= i < |listed| && listed[i].vout == v;
      assert marked[i].vout == v;
    }
  }

  /** A listed entry passes the decoder's test exactly when the parser reads its output. */
  lemma EntryReadIffParserReads(outputs: seq<Script>, listed: seq<Commitment>, i: nat)
    requires Lists(outputs, |outputs|, listed) && i < |listed|
    ensures listed[i].protocol.Core? && CoreDaoReads(listed[i].script) <==>
              CoreDaoParserReads(outputs[listed[i].vout])
  {
    ReadOutputsAreCoreCommitments(outputs[listed[i].vout]);
  }

  lemma NoEarlierRead(outputs: seq<Script>, listed: seq<Commitment>, k: nat, u: nat)
    requires Lists(outputs, |outputs|, listed) && Unmarked(listed) && k < |listed|
    requires forall i :: 0 <= i < k ==> !TakesEntry(listed[i])
    requires 0 < u < listed[k].vout
    ensures !CoreDaoParserReads(outputs[u])
  {
    hide Recognize, StatusOf, CommitmentOf, CoreDaoReads, CoreDaoParserReads, IsOpReturn;
    if CoreDaoParserReads(outputs[u]) {
      ReadOutputsAreCoreCommitments(outputs[u]);
      var i: nat :| i < |listed| && listed[i].vout == u;
      EntryReadIffParserReads(outputs, listed, i);
    }
  }

  lemma ChoiceIs(outputs: seq<Script>, from: nat, chosen: nat)
    requires from <= chosen < |outputs| && chosen > 0 && CoreDaoParserReads(outputs[chosen])
    requires forall u :: from <= u < chosen && u > 0 ==> !CoreDaoParserReads(outputs[u])
    ensures CoreDaoChoice(outputs, from) == Some(chosen)
  {
    hide CoreDaoParserReads, CoreDaoChoice;
  }

  lemma EntryTakenIsRead(outputs: seq<Script>, listed: seq<Commitment>, k: nat)
    requires Lists(outputs, |outputs|, listed) && Unmarked(listed) && k < |listed| && TakesEntry(listed[k])
    ensures 0 < listed[k].vout < |outputs| && CoreDaoParserReads(outputs[listed[k].vout])
  {
    hide CommitmentOf, CoreDaoReads, CoreDaoParserReads, IsCommitment;
    EntryReadIffParserReads(outputs, listed, k);
  }

  lemma FirstReadIsChoice(outputs: seq<Script>, listed: seq<Commitment>, k: nat)
    requires Lists(outputs, |outputs|, listed) && Unmarked(listed) && k < |listed|
    requires TakesEntry(listed[k])
    requires forall i :: 0 <= i < k ==> !TakesEntry(listed[i])
    ensures CoreDaoChoice(outputs, 0) == Some(listed[k].vout)
    ensures forall i :: 0 <= i < |listed| && i != k ==> listed[i].vout != listed[k].vout
  {
    VoutsDistinct(outputs, listed, k);
    EntryTakenIsRead(outputs, listed, k);
    hide Lists, Unmarked, TakesEntry, CoreDaoParserReads, CoreDaoChoice;
    var chosen := listed[k].vout;
    forall u | 0 <= u < chosen && u > 0 ensures !CoreDaoParserReads(outputs[u]) {
      NoEarlierRead(outputs, listed, k, u);
    }
    ChoiceIs(outputs, 0, chosen);
  }

  lemma VoutsDistinct(outputs: seq<Script>, listed: seq<Commitment>, k: nat)
    requires Lists(outputs, |outputs|, listed) && k < |listed|
    ensures forall i :: 0 <= i < |listed| && i != k ==> listed[i].vout != listed[k].vout
  {
    hide CommitmentOf, IsCommitment;
  }

  lemma NoReadMeansNoChoice(outputs: seq<Script>, listed: seq<Commitment>)
    requires Lists(outputs, |outputs|, listed) && Unmarked(listed)
    requires forall i :: 0 <= i < |listed| ==> !TakesEntry(listed[i])
    ensures CoreDaoChoice(outputs, 0).Some? ==> CoreDaoChoice(outputs, 0).value >= VOUT_LIMIT
  {
    hide Recognize, StatusOf, CommitmentOf, CoreDaoReads, CoreDaoParserReads, IsOpReturn, CoreDaoChoice;
    var choice := CoreDaoChoice(outputs, 0);
    if choice.Some? && choice.value < VOUT_LIMIT {
      ReadOutputsAreCoreCommitments(outputs[choice.value]);
      var i: nat :| i < |listed| && listed[i].vout == choice.value;
      EntryReadIffParserReads(outputs, listed, i);
    }
  }
}
