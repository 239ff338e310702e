/** Cutting one secret out of a response body in place. */
module LobbySecrets {
  import opened Protocol

  datatype Failure = BadSecret | BadRoute | BadJson

  datatype Extracted = Refused(error: Failure) | Secret(bytes: Bytes)

  const QUOTE: uint8 := '\"' as int
  const COLON: uint8 := ':' as int
  const SPACE: uint8 := ' ' as int
  const BACKSLASH: uint8 := '\\' as int

  predicate IsSpace(byte: uint8) {
    byte == SPACE || byte == 9 || byte == 10 || byte == 12 || byte == 13
  }

  predicate IsControl(byte: uint8) {
    byte < 0x20 || byte == 0x7F
  }

  predicate IsSecretByte(byte: uint8) {
    || '0' as int <= byte <= '9' as int || 'a' as int <= byte <= 'z' as int || 'A' as int <= byte <= 'Z' as int
    || byte == '-' as int || byte == '_' as int || byte == COLON || byte == '.' as int
  }

  predicate IsSecret(bytes: Bytes) {
    32 <= |bytes| <= 512 && forall i | 0 <= i < |bytes| :: IsSecretByte(bytes[i])
  }

  // ---------------------------------------------------------------- scanning

  predicate OccursAt(body: Bytes, needle: Bytes, i: nat) {
    i + |needle| <= |body| && body[i..i + |needle|] == needle
  }

  /** The occurrences that start before `n`, in order. */
  function Occurrences(body: Bytes, needle: Bytes, n: nat): seq<nat> {
    if n == 0 then []
    else if OccursAt(body, needle, n - 1) then Occurrences(body, needle, n - 1) + [n - 1]
    else Occurrences(body, needle, n - 1)
  }

  lemma {:induction false} OccurrencesAreAll(body: Bytes, needle: Bytes, n: nat)
    ensures forall i: nat :: i in Occurrences(body, needle, n) <==> i < n && OccursAt(body, needle, i)
  {
    if n > 0 {
      OccurrencesAreAll(body, needle, n - 1);
    }
  }

  function Needle(key: Bytes): Bytes {
    [QUOTE] + key + [QUOTE]
  }

  /** First position from `i` that is not white space. */
  function SkipSpace(body: Bytes, i: nat): (j: nat)
    requires i <= |body|
    ensures i <= j <= |body|
    ensures forall k | i <= k < j :: IsSpace(body[k])
    ensures j < |body| ==> !IsSpace(body[j])
    decreases |body| - i
  {
    if i < |body| && IsSpace(body[i]) then SkipSpace(body, i + 1) else i
  }

  predicate IsForbidden(byte: uint8) {
    byte == BACKSLASH || byte >= 0x80 || IsControl(byte)
  }

  /** First position from `i` holding a quote or a byte no value may contain. */
  function ScanValue(body: Bytes, i: nat): (j: nat)
    requires i <= |body|
    ensures i <= j <= |body|
    ensures forall k | i <= k < j :: body[k] != QUOTE && !IsForbidden(body[k])
    ensures j < |body| ==> body[j] == QUOTE || IsForbidden(body[j])
    decreases |body| - i
  {
    if i < |body| && body[i] != QUOTE && !IsForbidden(body[i]) then ScanValue(body, i + 1) else i
  }

  // ---------------------------------------------------------------- where the secret is

  datatype Located = Absent(error: Failure) | At(start: nat, end: nat)

  datatype Opening = Unopened(error: Failure) | OpensAt(start: nat)

  /** Where the value of a key that ends at `from` opens: past a colon and a quote. */
  function OpeningAfter(body: Bytes, from: nat): (opening: Opening)
    requires from <= |body|
    ensures opening.OpensAt? ==> from < opening.start <= |body|
  {
    var colon := SkipSpace(body, from);
    if colon >= |body| || body[colon] != COLON then Unopened(BadJson)
    else
      var quote := SkipSpace(body, colon + 1);
      if quote >= |body| || body[quote] != QUOTE then Unopened(BadSecret) else OpensAt(quote + 1)
  }

  function LocatedFrom(body: Bytes, start: nat): Located
    requires start <= |body|
  {
    var close := ScanValue(body, start);
    if close >= |body| then Absent(BadJson)
    else if body[close] != QUOTE then Absent(BadSecret)
    else if !IsSecret(body[start..close]) then Absent(BadSecret)
    else At(start, close)
  }

  function LocatedAfter(body: Bytes, from: nat): Located
    requires from <= |body|
  {
    match OpeningAfter(body, from)
    case Unopened(error) => Absent(error)
    case OpensAt(start) => LocatedFrom(body, start)
  }

  function Locate(body: Bytes, key: Bytes): Located {
    var matches := Occurrences(body, Needle(key), |body|);
    if |matches| != 1 then Absent(BadSecret)
    else
      OccurrencesAreAll(body, Needle(key), |body|);
      assert matches[0] in matches;
      LocatedAfter(body, matches[0] + |Needle(key)|)
  }

  function Blanked(body: Bytes, start: nat, end: nat): (blanked: Bytes)
    requires start <= end <= |body|
    ensures |blanked| == |body|
  {
    seq(|body|, i requires 0 <= i < |body| => if start <= i < end then SPACE else body[i])
  }

  // ---------------------------------------------------------------- the extractor

  method ExtractSecret(body: array<uint8>, key: Bytes) returns (extracted: Extracted)
    modifies body
    ensures match Locate(old(body[..]), key)
            case Absent(error) => extracted == Refused(error) && body[..] == old(body[..])
            case At(start, end) =>
              start <= end <= |old(body[..])|
              && extracted == Secret(old(body[..])[start..end])
              && body[..] == Blanked(old(body[..]), start, end)
  {
    var needle := [QUOTE] + key;
    needle := needle + [QUOTE];
    var matches := FindAll(body, needle);
    if |matches| != 1 {
      return Refused(BadSecret);
    }
    OccurrencesAreAll(body[..], needle, body.Length);
    assert matches[0] in matches;
    var opening := FindOpening(body, matches[0] + |needle|);
    if opening.Unopened? {
      return Refused(opening.error);
    }
    extracted := CutValue(body, opening.start);
  }

  method FindAll(body: array<uint8>, needle: Bytes) returns (matches: seq<nat>)
    ensures matches == Occurrences(body[..], needle, body.Length)
  {
    matches := [];
    for i := 0 to body.Length
      invariant matches == Occurrences(body[..], needle, i)
    {
      if i + |needle| <= body.Length && body[i..i + |needle|] == needle {
        assert body[..][i..i + |needle|] == body[i..i + |needle|];
        matches := matches + [i];
      } else {
        assert i + |needle| <= body.Length ==> body[..][i..i + |needle|] == body[i..i + |needle|];
      }
    }
  }

  method FindOpening(body: array<uint8>, from: nat) returns (opening: Opening)
    requires from <= body.Length
    ensures opening == OpeningAfter(body[..], from)
  {
    var cursor := SkipSpaces(body, from);
    if cursor >= body.Length || body[cursor] != COLON {
      return Unopened(BadJson);
    }
    cursor := SkipSpaces(body, cursor + 1);
    if cursor >= body.Length || body[cursor] != QUOTE {
      return Unopened(BadSecret);
    }
    return OpensAt(cursor + 1);
  }

  /** Takes the value that starts at `start` and overwrites it with spaces. */
  method CutValue(body: array<uint8>, start: nat) returns (extracted: Extracted)
    requires start <= body.Length
    modifies body
    ensures match LocatedFrom(old(body[..]), start)
            case Absent(error) => extracted == Refused(error) && body[..] == old(body[..])
            case At(from, end) =>
              start == from <= end <= |old(body[..])|
              && extracted == Secret(old(body[..])[from..end])
              && body[..] == Blanked(old(body[..]), from, end)
  {
    ghost var was := body[..];
    var cursor := start;
    while cursor < body.Length && body[cursor] != QUOTE
      invariant start <= cursor <= body.Length && body[..] == was
      invariant ScanValue(was, start) == ScanValue(was, cursor)
    {
      if IsForbidden(body[cursor]) {
        return Refused(BadSecret);
      }
      cursor := cursor + 1;
    }
    if cursor >= body.Length {
      return Refused(BadJson);
    }
    var secret := body[start..cursor];
    assert secret == was[start..cursor];
    if !IsSecret(secret) {
      return Refused(BadSecret);
    }
    Fill(body, start, cursor);
    return Secret(secret);
  }

  method SkipSpaces(body: array<uint8>, from: nat) returns (cursor: nat)
    requires from <= body.Length
    ensures cursor == SkipSpace(body[..], from)
  {
    cursor := from;
    while cursor < body.Length && IsSpace(body[cursor])
      invariant from <= cursor <= body.Length
      invariant SkipSpace(body[..], from) == SkipSpace(body[..], cursor)
    {
      cursor := cursor + 1;
    }
  }

  method Fill(body: array<uint8>, start: nat, end: nat)
    requires start <= end <= body.Length
    modifies body
    ensures body[..] == Blanked(old(body[..]), start, end)
  {
    for i := start to end
      invariant forall k | 0 <= k < body.Length :: body[k] == if start <= k < i then SPACE else old(body[..])[k]
    {
      body[i] := SPACE;
    }
  }

  // ---------------------------------------------------------------- what was cut

  ghost predicate OccursOnlyAt(body: Bytes, needle: Bytes, m: nat) {
    forall i: nat :: OccursAt(body, needle, i) <==> i == m
  }

  /** Only white space and one colon from `from` up to `quote`. */
  predicate ColonBetween(body: Bytes, from: nat, colon: nat, quote: nat) {
    && from <= colon < quote < |body|
    && body[colon] == ':' as int
    && forall k | from <= k < quote && k != colon :: body[k] in {9, 10, 12, 13, 32}
  }

  predicate QuotedSecret(body: Bytes, start: nat, end: nat) {
    && 0 < start <= end < |body|
    && body[start - 1] == '\"' as int && body[end] == '\"' as int
    && IsPlainSecret(body[start..end])
  }

  /** ASCII letters, digits, and the hyphen, full stop, colon and underscore. */
  predicate IsPlain(byte: uint8) {
    45 <= byte <= 46 || 48 <= byte <= 58 || 65 <= byte <= 90 || byte == 95 || 97 <= byte <= 122
  }

  /** 32 to 512 such bytes. */
  predicate IsPlainSecret(bytes: Bytes) {
    |bytes| >= 32 && |bytes| <= 512 && forall i | 0 <= i < |bytes| :: IsPlain(bytes[i])
  }

  lemma SecretsArePlain(bytes: Bytes)
    ensures IsSecret(bytes) <==> IsPlainSecret(bytes)
  {
    assert forall byte: uint8 :: IsSecretByte(byte) <==> IsPlain(byte);
  }

  /** A body whose key occurs once and is followed by a colon and one quoted secret. */
  ghost predicate HoldsSecretAt(body: Bytes, key: Bytes, m: nat, colon: nat, start: nat, end: nat) {
    && OccursOnlyAt(body, Needle(key), m)
    && QuotedSecret(body, start, end)
    && ColonBetween(body, m + |Needle(key)|, colon, start - 1)
  }

  lemma {:induction false} OneOccurrence(body: Bytes, needle: Bytes, n: nat, m: nat)
    requires OccursOnlyAt(body, needle, m)
    ensures Occurrences(body, needle, n) == if m < n then [m] else []
  {
    if n > 0 {
      OneOccurrence(body, needle, n - 1, m);
    }
  }

  lemma SingleOccurrenceIsOnly(body: Bytes, needle: Bytes, m: nat)
    requires needle != [] && Occurrences(body, needle, |body|) == [m]
    ensures OccursOnlyAt(body, needle, m)
  {
    OccurrencesAreAll(body, needle, |body|);
    forall i: nat ensures OccursAt(body, needle, i) <==> i == m {
      assert i in [m] <==> i == m;
    }
  }

  lemma SkipSpaceStopsAt(body: Bytes, i: nat, j: nat)
    requires i <= j < |body| && !IsSpace(body[j]) && forall k | i <= k < j :: IsSpace(body[k])
    ensures SkipSpace(body, i) == j
  {
  }

  lemma OpeningIsPastTheColon(body: Bytes, from: nat, colon: nat, start: nat)
    requires from <= |body| && 0 < start <= |body| && body[start - 1] == QUOTE
    requires ColonBetween(body, from, colon, start - 1)
    ensures OpeningAfter(body, from) == OpensAt(start)
  {
    SkipSpaceStopsAt(body, from, colon);
    SkipSpaceStopsAt(body, colon + 1, start - 1);
  }

  lemma SecretEndsTheScan(body: Bytes, start: nat, end: nat)
    requires QuotedSecret(body, start, end)
    ensures LocatedFrom(body, start) == At(start, end)
  {
    SecretsArePlain(body[start..end]);
    forall k | start <= k < end ensures IsSecretByte(body[k]) {
      assert body[k] == body[start..end][k - start];
    }
    assert ScanValue(body, start) == end;
  }

  /** A successful cut is the whole quoted value of the one occurrence of the key. */
  lemma CutIsTheQuotedValue(body: Bytes, key: Bytes) returns (m: nat, colon: nat)
    requires Locate(body, key).At?
    ensures HoldsSecretAt(body, key, m, colon, Locate(body, key).start, Locate(body, key).end)
  {
    var needle := Needle(key);
    var matches := Occurrences(body, needle, |body|);
    m := matches[0];
    assert matches == [m];
    SingleOccurrenceIsOnly(body, needle, m);
    assert OccursAt(body, needle, m);
    colon := SkipSpace(body, m + |needle|);
    var quote := SkipSpace(body, colon + 1);
    assert ColonBetween(body, m + |needle|, colon, quote);
    SecretsArePlain(body[quote + 1..Locate(body, key).end]);
  }

  /** Any such body is accepted, so the two descriptions agree. */
  lemma QuotedValueIsCut(body: Bytes, key: Bytes, m: nat, colon: nat, start: nat, end: nat)
    requires HoldsSecretAt(body, key, m, colon, start, end)
    ensures Locate(body, key) == At(start, end)
  {
    var needle := Needle(key);
    assert OccursAt(body, needle, m);
    OneOccurrence(body, needle, |body|, m);
    OpeningIsPastTheColon(body, m + |needle|, colon, start);
    SecretEndsTheScan(body, start, end);
  }

  lemma BlankedValueHasNoSecret(body: Bytes, start: nat, end: nat)
    requires start < end < |body| && body[end] == QUOTE
    requires forall k | start <= k < end :: body[k] == SPACE
    ensures LocatedFrom(body, start) == Absent(BadSecret)
  {
    assert ScanValue(body, start) == end;
    assert body[start..end][0] == SPACE;
  }

  /** Blanking a later part keeps an occurrence where it was. */
  lemma BlankingKeepsEarlier(body: Bytes, needle: Bytes, m: nat, start: nat, end: nat)
    requires OccursAt(body, needle, m) && m + |needle| <= start <= end <= |body|
    ensures OccursAt(Blanked(body, start, end), needle, m)
  {
    assert Blanked(body, start, end)[m..m + |needle|] == body[m..m + |needle|];
  }

  /** A body where the key occurs at `m` yields what follows there, or nothing when it occurs again. */
  lemma LocatedAfterTheKey(body: Bytes, key: Bytes, m: nat)
    requires OccursAt(body, Needle(key), m)
    ensures Locate(body, key) == Absent(BadSecret) || Locate(body, key) == LocatedAfter(body, m + |Needle(key)|)
  {
    var matches := Occurrences(body, Needle(key), |body|);
    OccurrencesAreAll(body, Needle(key), |body|);
    assert m in matches;
  }

  lemma BlankedBodyOpensAtTheSpaces(body: Bytes, key: Bytes, m: nat, colon: nat, start: nat, end: nat)
    requires HoldsSecretAt(body, key, m, colon, start, end)
    ensures m + |Needle(key)| <= start <= end < |body|
    ensures LocatedAfter(Blanked(body, start, end), m + |Needle(key)|) == Absent(BadSecret)
  {
    var blanked := Blanked(body, start, end);
    OpeningIsPastTheColon(blanked, m + |Needle(key)|, colon, start);
    BlankedValueHasNoSecret(blanked, start, end);
  }

  /** After a successful cut a second extraction of the same key always fails. */
  lemma SecondExtractionFails(body: Bytes, key: Bytes)
    requires Locate(body, key).At?
    ensures Locate(Blanked(body, Locate(body, key).start, Locate(body, key).end), key) == Absent(BadSecret)
  {
    var m, colon := CutIsTheQuotedValue(body, key);
    var start, end := Locate(body, key).start, Locate(body, key).end;
    assert OccursAt(body, Needle(key), m);
    BlankedBodyOpensAtTheSpaces(body, key, m, colon, start, end);
    BlankingKeepsEarlier(body, Needle(key), m, start, end);
    LocatedAfterTheKey(Blanked(body, start, end), key, m);
  }

  // ---------------------------------------------------------------- refusals

  /** The key's value opens with the quote at `quote`. */
  predicate OpensWith(body: Bytes, from: nat, quote: nat) {
    && quote < |body| && body[quote] == '\"' as int
    && exists colon: nat :: colon < quote && ColonBetween(body, from, colon, quote)
  }

  /** Only white space stands between the key and a colon. */
  predicate HasColon(body: Bytes, from: nat) {
    exists colon :: from <= colon < |body| && body[colon] == ':' as int
                    && forall k | from <= k < colon :: body[k] in {9, 10, 12, 13, 32}
  }

  /** Printable ASCII other than a quote or a backslash. */
  predicate IsOrdinary(byte: uint8) {
    0x20 <= byte < 0x7F && byte != 0x22 && byte != 0x5C
  }

  /** A body is malformed JSON exactly when the colon is missing, or the open value never ends. */
  predicate IsCutShort(body: Bytes, from: nat) {
    || !HasColon(body, from)
    || exists quote: nat :: quote < |body| && OpensWith(body, from, quote)
                            && forall k | quote < k < |body| :: IsOrdinary(body[k])
  }

  lemma ColonIsFound(body: Bytes, from: nat)
    requires from <= |body|
    ensures HasColon(body, from) <==> OpeningAfter(body, from) != Unopened(BadJson)
  {
    var colon := SkipSpace(body, from);
    if HasColon(body, from) {
      var c :|
        from <= c < |body| && body[c] == ':' as int && forall k | from <= k < c :: body[k] in {9, 10, 12, 13, 32};
      SkipSpaceStopsAt(body, from, c);
    }
  }

  lemma OpeningIsFound(body: Bytes, from: nat, quote: nat)
    requires from <= |body|
    ensures OpensWith(body, from, quote) <==> OpeningAfter(body, from) == OpensAt(quote + 1)
  {
    if OpensWith(body, from, quote) {
      var colon: nat :| colon < quote && ColonBetween(body, from, colon, quote);
      OpeningIsPastTheColon(body, from, colon, quote + 1);
    }
    if OpeningAfter(body, from) == OpensAt(quote + 1) {
      var colon := SkipSpace(body, from);
      assert ColonBetween(body, from, colon, quote);
    }
  }

  lemma ScanRunsOut(body: Bytes, start: nat)
    requires start <= |body|
    ensures LocatedFrom(body, start) == Absent(BadJson) <==> forall k | start <= k < |body| :: IsOrdinary(body[k])
  {
    var close := ScanValue(body, start);
    assert forall byte: uint8 :: IsOrdinary(byte) <==> byte != QUOTE && !IsForbidden(byte);
  }

  lemma CutShortExactlyWhen(body: Bytes, from: nat)
    requires from <= |body|
    ensures LocatedAfter(body, from) == Absent(BadJson) <==> IsCutShort(body, from)
  {
    ColonIsFound(body, from);
    match OpeningAfter(body, from) {
      case Unopened(error) =>
        forall quote: nat ensures !OpensWith(body, from, quote) {
          OpeningIsFound(body, from, quote);
        }
      case OpensAt(start) =>
        OpeningIsFound(body, from, start - 1);
        ScanRunsOut(body, start);
        forall quote: nat | OpensWith(body, from, quote) ensures quote == start - 1 {
          OpeningIsFound(body, from, quote);
        }
    }
  }

  lemma OnlyOccurrenceIsOne(body: Bytes, needle: Bytes, m: nat)
    requires OccursOnlyAt(body, needle, m) && needle != []
    ensures Occurrences(body, needle, |body|) == [m]
  {
    assert OccursAt(body, needle, m);
    OneOccurrence(body, needle, |body|, m);
  }

  /** Two errors only, and a body is malformed exactly when its key occurs once and the rest is cut short. */
  lemma RefusalsExactlyWhen(body: Bytes, key: Bytes)
    ensures Locate(body, key) == Absent(BadJson) <==>
              exists m: nat :: OccursOnlyAt(body, Needle(key), m) && IsCutShort(body, m + |Needle(key)|)
    ensures Locate(body, key).Absent? ==> Locate(body, key).error != BadRoute
  {
    var needle := Needle(key);
    forall m: nat | OccursOnlyAt(body, needle, m)
      ensures Locate(body, key) == Absent(BadJson) <==> IsCutShort(body, m + |needle|)
    {
      OnlyOccurrenceIsOne(body, needle, m);
      assert OccursAt(body, needle, m);
      CutShortExactlyWhen(body, m + |needle|);
    }
    var matches := Occurrences(body, needle, |body|);
    if |matches| == 1 {
      assert matches == [matches[0]];
      SingleOccurrenceIsOnly(body, needle, matches[0]);
    }
  }
}
