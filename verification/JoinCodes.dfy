/** Join codes: how a lobby identifier and an invitation are joined into one text and taken apart again. */
module JoinCodes {
  import opened Protocol
  import opened Uuid
  import opened LobbySecrets
  import opened Utf8

  datatype Joined = Rejected(error: Failure) | Joined(lobby: Bytes, invitation: Bytes)

  datatype Assembled = Unroutable(error: Failure) | Code(bytes: Bytes)

  /** The ASCII bytes of `SPURFIRE1:`. */
  const JOIN_PREFIX: Bytes := [0x53, 0x50, 0x55, 0x52, 0x46, 0x49, 0x52, 0x45, 0x31, 0x3A]

  predicate AllSpace(bytes: Bytes) {
    forall i | 0 <= i < |bytes| :: IsSpace(bytes[i])
  }

  predicate IsTrimmed(bytes: Bytes) {
    bytes != [] ==> !IsSpace(bytes[0]) && !IsSpace(bytes[|bytes| - 1])
  }

  function TrimFront(bytes: Bytes): (trimmed: Bytes)
    ensures trimmed != [] ==> !IsSpace(trimmed[0])
  {
    if bytes != [] && IsSpace(bytes[0]) then TrimFront(bytes[1..]) else bytes
  }

  function TrimBack(bytes: Bytes): (trimmed: Bytes)
    ensures trimmed <= bytes
    ensures trimmed != [] ==> !IsSpace(trimmed[|trimmed| - 1])
  {
    if bytes != [] && IsSpace(bytes[|bytes| - 1]) then TrimBack(bytes[..|bytes| - 1]) else bytes
  }

  function Trim(bytes: Bytes): (trimmed: Bytes)
    ensures IsTrimmed(trimmed)
  {
    TrimBack(TrimFront(bytes))
  }

  // ---------------------------------------------------------------- specification

  function FirstColon(bytes: Bytes): (i: nat)
    ensures i <= |bytes|
    ensures forall k | 0 <= k < i :: bytes[k] != COLON
    ensures i < |bytes| ==> bytes[i] == COLON
  {
    if bytes == [] || bytes[0] == COLON then 0 else 1 + FirstColon(bytes[1..])
  }

  function ParsedParts(lobby: Bytes, invitation: Bytes): Joined {
    if !IsUtf8(lobby) then Rejected(BadSecret)
    else if Decoded(lobby).Invalid? then Rejected(BadRoute)
    else if !IsSecret(invitation) then Rejected(BadSecret)
    else Joined(Formatted(Decoded(lobby).bytes), invitation)
  }

  function ParsedRest(rest: Bytes): Joined {
    var split := FirstColon(rest);
    if split == |rest| then Rejected(BadSecret) else ParsedParts(rest[..split], rest[split + 1..])
  }

  function ParsedTrimmed(trimmed: Bytes): Joined {
    if JOIN_PREFIX <= trimmed then ParsedRest(trimmed[|JOIN_PREFIX|..]) else Rejected(BadSecret)
  }

  function ParsedJoinCode(code: Bytes): Joined {
    ParsedTrimmed(Trim(code))
  }

  function AssembledCode(lobby: Bytes, invitation: Bytes): Bytes {
    JOIN_PREFIX + (lobby + ([COLON] + invitation))
  }

  // ---------------------------------------------------------------- the parser and the printer

  method ParseJoinCode(code: Bytes) returns (joined: Joined)
    ensures joined == ParsedJoinCode(code)
  {
    var bytes := TrimCode(code);
    if !(JOIN_PREFIX <= bytes) {
      return Rejected(BadSecret);
    }
    var rest := bytes[|JOIN_PREFIX|..];
    var split := FindColon(rest);
    if split == |rest| {
      return Rejected(BadSecret);
    }
    joined := ReadParts(rest[..split], rest[split + 1..]);
  }

  method TrimCode(code: Bytes) returns (bytes: Bytes)
    ensures bytes == Trim(code)
  {
    bytes := code;
    while bytes != [] && IsSpace(bytes[0])
      invariant TrimFront(bytes) == TrimFront(code)
    {
      bytes := bytes[1..];
    }
    while bytes != [] && IsSpace(bytes[|bytes| - 1])
      invariant TrimBack(bytes) == Trim(code)
    {
      bytes := bytes[..|bytes| - 1];
    }
  }

  method FindColon(rest: Bytes) returns (split: nat)
    ensures split == FirstColon(rest)
  {
    split := 0;
    while split < |rest| && rest[split] != COLON
      invariant split <= |rest| && forall k | 0 <= k < split :: rest[k] != COLON
    {
      split := split + 1;
    }
    if split < |rest| {
      FirstColonIs(rest, split);
    }
  }

  method ReadParts(lobby: Bytes, invitation: Bytes) returns (joined: Joined)
    ensures joined == ParsedParts(lobby, invitation)
  {
    if !IsUtf8(lobby) {
      return Rejected(BadSecret);
    }
    var parsed := DecodeUuidV4(lobby);
    if parsed.Invalid? {
      return Rejected(BadRoute);
    }
    var text := FormatUuid(parsed.bytes);
    if !IsSecret(invitation) {
      return Rejected(BadSecret);
    }
    return Joined(text, invitation);
  }

  method AssembleInvitation(lobby: Bytes, invitation: Bytes) returns (assembled: Assembled)
    ensures assembled == if Decoded(lobby).Valid? then Code(AssembledCode(lobby, invitation)) else Unroutable(BadRoute)
  {
    var parsed := DecodeUuidV4(lobby);
    if parsed.Invalid? {
      return Unroutable(BadRoute);
    }
    var code := JOIN_PREFIX;
    code := code + lobby;
    code := code + [COLON];
    code := code + invitation;
    return Code(code);
  }

  // ---------------------------------------------------------------- round trip

  lemma {:induction false} TrimFrontDropsSpaces(before: Bytes, rest: Bytes)
    requires AllSpace(before) && (rest == [] || !IsSpace(rest[0]))
    ensures TrimFront(before + rest) == rest
  {
    if before == [] {
      assert before + rest == rest;
    } else {
      assert (before + rest)[1..] == before[1..] + rest;
      TrimFrontDropsSpaces(before[1..], rest);
    }
  }

  lemma {:induction false} TrimBackDropsSpaces(rest: Bytes, after: Bytes)
    requires AllSpace(after) && (rest == [] || !IsSpace(rest[|rest| - 1]))
    ensures TrimBack(rest + after) == rest
  {
    if after == [] {
      assert rest + after == rest;
    } else {
      var n := |after| - 1;
      assert (rest + after)[..|rest| + n] == rest + after[..n];
      TrimBackDropsSpaces(rest, after[..n]);
    }
  }

  lemma TrimDropsOuterSpaces(before: Bytes, core: Bytes, after: Bytes)
    requires AllSpace(before) && AllSpace(after) && core != [] && IsTrimmed(core)
    ensures Trim(before + core + after) == core
  {
    assert before + core + after == before + (core + after);
    TrimFrontDropsSpaces(before, core + after);
    TrimBackDropsSpaces(core, after);
  }

  lemma {:induction false} TrimFrontSplits(code: Bytes) returns (before: Bytes)
    ensures AllSpace(before) && code == before + TrimFront(code)
  {
    if code != [] && IsSpace(code[0]) {
      var inner := TrimFrontSplits(code[1..]);
      before := [code[0]] + inner;
    } else {
      before := [];
    }
  }

  lemma {:induction false} TrimBackSplits(code: Bytes) returns (after: Bytes)
    ensures AllSpace(after) && code == TrimBack(code) + after
  {
    if code != [] && IsSpace(code[|code| - 1]) {
      var inner := TrimBackSplits(code[..|code| - 1]);
      after := inner + [code[|code| - 1]];
    } else {
      after := [];
    }
  }

  lemma {:induction false} FirstColonIs(bytes: Bytes, i: nat)
    requires i < |bytes| && bytes[i] == COLON && forall k | 0 <= k < i :: bytes[k] != COLON
    ensures FirstColon(bytes) == i
  {
    var j := FirstColon(bytes);
    assert !(j < i) && !(i < j);
  }

  /** The text of an identifier is ASCII without a colon. */
  lemma IdentifierCharacters(lobby: Bytes)
    requires Decoded(lobby).Valid?
    ensures IsUtf8(lobby) && COLON !in lobby
  {
    assert forall i | 0 <= i < |lobby| :: lobby[i] == HYPHEN || IsHex(lobby[i]);
    AsciiIsUtf8(lobby);
  }

  lemma AssembledCodeIsTrimmed(lobby: Bytes, invitation: Bytes)
    requires IsSecret(invitation)
    ensures AssembledCode(lobby, invitation) != [] && IsTrimmed(AssembledCode(lobby, invitation))
  {
    var code := AssembledCode(lobby, invitation);
    assert code[0] == JOIN_PREFIX[0];
    assert code[|code| - 1] == invitation[|invitation| - 1];
  }

  lemma AssembledCodeParses(lobby: Bytes, invitation: Bytes)
    requires Decoded(lobby).Valid? && IsSecret(invitation)
    ensures var rest := lobby + ([COLON] + invitation);
            && FirstColon(rest) == |lobby|
            && rest[..|lobby|] == lobby && rest[|lobby| + 1..] == invitation
            && ParsedParts(lobby, invitation) == Joined(LowerText(lobby), invitation)
  {
    IdentifierCharacters(lobby);
    ParseThenPrint(lobby);
    FirstColonIs(lobby + ([COLON] + invitation), |lobby|);
  }

  lemma AfterPrefix(prefix: Bytes, rest: Bytes)
    ensures prefix <= prefix + rest && (prefix + rest)[|prefix|..] == rest
  {
  }

  lemma PrefixedParses(rest: Bytes)
    ensures ParsedTrimmed(JOIN_PREFIX + rest) == ParsedRest(rest)
  {
    AfterPrefix(JOIN_PREFIX, rest);
  }

  /** Identifiers in any hex case and invitations holding colons survive any surrounding white space. */
  lemma AssembleThenParse(before: Bytes, lobby: Bytes, invitation: Bytes, after: Bytes)
    requires AllSpace(before) && AllSpace(after)
    requires Decoded(lobby).Valid? && IsSecret(invitation)
    ensures ParsedJoinCode(before + AssembledCode(lobby, invitation) + after) == Joined(LowerText(lobby), invitation)
  {
    AssembledCodeIsTrimmed(lobby, invitation);
    TrimDropsOuterSpaces(before, AssembledCode(lobby, invitation), after);
    AssembledCodeParses(lobby, invitation);
    PrefixedParses(lobby + ([COLON] + invitation));
  }

  /** `code` is an assembled code for these parts, with some white space around it. */
  predicate IsCarried(code: Bytes, before: Bytes, lobby: Bytes, invitation: Bytes, after: Bytes) {
    && AllSpace(before) && AllSpace(after)
    && Decoded(lobby).Valid? && IsSecret(invitation)
    && code == before + AssembledCode(lobby, invitation) + after
  }

  lemma TrimSplits(code: Bytes) returns (before: Bytes, after: Bytes)
    ensures AllSpace(before) && AllSpace(after) && code == before + Trim(code) + after
  {
    before := TrimFrontSplits(code);
    after := TrimBackSplits(TrimFront(code));
    assert before + (Trim(code) + after) == before + Trim(code) + after;
  }

  lemma PartsAreValid(lobby: Bytes, invitation: Bytes)
    requires ParsedParts(lobby, invitation).Joined?
    ensures Decoded(lobby).Valid? && IsSecret(invitation)
    ensures ParsedParts(lobby, invitation) == Joined(LowerText(lobby), invitation)
  {
    ParseThenPrint(lobby);
  }

  lemma SplitJoins(rest: Bytes, split: nat)
    requires split < |rest|
    ensures rest == rest[..split] + ([rest[split]] + rest[split + 1..])
  {
  }

  lemma PrefixAndRest(prefix: Bytes, trimmed: Bytes)
    requires prefix <= trimmed
    ensures trimmed == prefix + trimmed[|prefix|..]
  {
  }

  predicate AreParts(lobby: Bytes, joined: Joined) {
    joined.Joined? && Decoded(lobby).Valid? && IsSecret(joined.invitation) && joined.lobby == LowerText(lobby)
  }

  lemma ParsedRestIsJoined(rest: Bytes) returns (lobby: Bytes)
    requires ParsedRest(rest).Joined?
    ensures AreParts(lobby, ParsedRest(rest)) && rest == lobby + ([COLON] + ParsedRest(rest).invitation)
  {
    var split := FirstColon(rest);
    lobby := rest[..split];
    PartsAreValid(lobby, rest[split + 1..]);
    SplitJoins(rest, split);
  }

  /** Trimmed text that parses is the code of its parts. */
  lemma ParsedTextIsAssembled(trimmed: Bytes) returns (lobby: Bytes)
    requires ParsedTrimmed(trimmed).Joined?
    ensures AreParts(lobby, ParsedTrimmed(trimmed))
    ensures trimmed == AssembledCode(lobby, ParsedTrimmed(trimmed).invitation)
  {
    lobby := ParsedRestIsJoined(trimmed[|JOIN_PREFIX|..]);
    PrefixAndRest(JOIN_PREFIX, trimmed);
  }

  /** The parser accepts nothing but assembled codes. */
  lemma ParseThenAssemble(code: Bytes) returns (before: Bytes, lobby: Bytes, after: Bytes)
    requires ParsedJoinCode(code).Joined?
    ensures IsCarried(code, before, lobby, ParsedJoinCode(code).invitation, after)
    ensures ParsedJoinCode(code).lobby == LowerText(lobby)
  {
    before, after := TrimSplits(code);
    lobby := ParsedTextIsAssembled(Trim(code));
  }

  /** Reading a code gives these parts exactly when it is their code, in some hex case, between white space. */
  lemma ParsesExactlyAssembledCodes(code: Bytes, id: Bytes, invitation: Bytes)
    ensures ParsedJoinCode(code) == Joined(id, invitation)
       <==> exists before, lobby, after :: IsCarried(code, before, lobby, invitation, after) && id == LowerText(lobby)
  {
    if ParsedJoinCode(code) == Joined(id, invitation) {
      var before, lobby, after := ParseThenAssemble(code);
    }
    forall before, lobby, after | IsCarried(code, before, lobby, invitation, after)
      ensures ParsedJoinCode(code) == Joined(LowerText(lobby), invitation)
    {
      AssembleThenParse(before, lobby, invitation, after);
    }
  }

  // ---------------------------------------------------------------- refusals

  predicate IsAround(code: Bytes, before: Bytes, core: Bytes, after: Bytes) {
    AllSpace(before) && AllSpace(after) && IsTrimmed(core) && core != [] && code == before + core + after
  }

  /** The text between the white space, taken apart at the first colon after the prefix. */
  ghost predicate IsSplit(code: Bytes, lobby: Bytes, invitation: Bytes) {
    && COLON !in lobby
    && exists before, after :: IsAround(code, before, AssembledCode(lobby, invitation), after)
  }

  lemma FaultyPart(lobby: Bytes, invitation: Bytes)
    ensures ParsedParts(lobby, invitation)
            == if !IsText(lobby) then Rejected(BadSecret)
               else if !IsVersion4Text(lobby) then Rejected(BadRoute)
               else if !IsPlainSecret(invitation) then Rejected(BadSecret)
               else Joined(LowerText(lobby), invitation)
  {
    WellFormedExactlyWhen(lobby);
    ParsesExactlyWhen(lobby);
    SecretsArePlain(invitation);
    if Decoded(lobby).Valid? {
      ParseThenPrint(lobby);
    }
  }

  lemma PartsOfRest(lobby: Bytes, invitation: Bytes)
    requires COLON !in lobby
    ensures ParsedRest(lobby + ([COLON] + invitation)) == ParsedParts(lobby, invitation)
  {
    var rest := lobby + ([COLON] + invitation);
    FirstColonIs(rest, |lobby|);
    assert rest[..|lobby|] == lobby && rest[|lobby| + 1..] == invitation;
  }

  lemma PartsOfCode(code: Bytes, lobby: Bytes, invitation: Bytes)
    requires IsSplit(code, lobby, invitation)
    ensures ParsedJoinCode(code) == ParsedParts(lobby, invitation)
  {
    var before, after :| IsAround(code, before, AssembledCode(lobby, invitation), after);
    TrimDropsOuterSpaces(before, AssembledCode(lobby, invitation), after);
    PrefixedParses(lobby + ([COLON] + invitation));
    PartsOfRest(lobby, invitation);
  }

  /** Which part of a split code is at fault decides the error. */
  lemma FaultyPartDecides(code: Bytes, lobby: Bytes, invitation: Bytes)
    requires IsSplit(code, lobby, invitation)
    ensures ParsedJoinCode(code)
            == if !IsText(lobby) then Rejected(BadSecret)
               else if !IsVersion4Text(lobby) then Rejected(BadRoute)
               else if !IsPlainSecret(invitation) then Rejected(BadSecret)
               else Joined(LowerText(lobby), invitation)
  {
    PartsOfCode(code, lobby, invitation);
    FaultyPart(lobby, invitation);
  }

  lemma Rejoined(prefix: Bytes, rest: Bytes, k: nat)
    requires k < |rest|
    ensures prefix + rest == prefix + (rest[..k] + ([rest[k]] + rest[k + 1..]))
  {
    SplitJoins(rest, k);
  }

  lemma SplitRestIsAssembled(rest: Bytes, k: nat)
    requires k < |rest| && rest[k] == COLON
    ensures JOIN_PREFIX + rest == AssembledCode(rest[..k], rest[k + 1..])
  {
    Rejoined(JOIN_PREFIX, rest, k);
  }

  lemma TrimIsAround(code: Bytes) returns (before: Bytes, after: Bytes)
    requires Trim(code) != []
    ensures IsAround(code, before, Trim(code), after)
  {
    before, after := TrimSplits(code);
  }

  lemma PrefixedRestIsSplit(code: Bytes, rest: Bytes, k: nat)
    requires Trim(code) == JOIN_PREFIX + rest && k < |rest| && rest[k] == COLON && COLON !in rest[..k]
    ensures IsSplit(code, rest[..k], rest[k + 1..])
  {
    SplitRestIsAssembled(rest, k);
    var before, after := TrimIsAround(code);
  }

  lemma UnprefixedIsRefused(code: Bytes)
    requires !(JOIN_PREFIX <= Trim(code))
    ensures ParsedJoinCode(code) == Rejected(BadSecret)
  {
  }

  lemma UndividedIsRefused(code: Bytes, rest: Bytes)
    requires Trim(code) == JOIN_PREFIX + rest && FirstColon(rest) == |rest|
    ensures ParsedJoinCode(code) == Rejected(BadSecret)
  {
    PrefixedParses(rest);
  }

  /** A code that cannot be split is refused as a secret. */
  lemma UnsplitIsRefused(code: Bytes)
    requires forall lobby, invitation :: !IsSplit(code, lobby, invitation)
    ensures ParsedJoinCode(code) == Rejected(BadSecret)
  {
    var prefix, trimmed := JOIN_PREFIX, Trim(code);
    if prefix <= trimmed {
      var rest := trimmed[|prefix|..];
      PrefixAndRest(prefix, trimmed);
      var k := FirstColon(rest);
      if k < |rest| {
        PrefixedRestIsSplit(code, rest, k);
      }
      UndividedIsRefused(code, rest);
    } else {
      UnprefixedIsRefused(code);
    }
  }

  /** The prefix as text. */
  lemma PrefixIsText()
    ensures |JOIN_PREFIX| == |"SPURFIRE1:"| && forall i | 0 <= i < 10 :: JOIN_PREFIX[i] == "SPURFIRE1:"[i] as int
  {
  }
}
