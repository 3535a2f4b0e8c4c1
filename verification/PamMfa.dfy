/**
 The PAM second factor: enrolment that shows ten recovery codes once and stores only
 their digests, and verification that uses a code up before it answers.
 */
module PamMfa {
  import opened Clocks
  import opened Digests
  import opened Options
  import opened RecoveryCodes
  import opened Results
  import opened Text

  const RECOVERY_CODE_COUNT: nat := 10

  const ENROLLMENT_TTL: nat := 600

  /** A stored credential: the sealed TOTP seed and the digests of the unused codes. */
  datatype Credential = Credential(username: string, sealedSeed: string, digests: seq<Digest>)

  /** The credential files by user name. */
  type Files = map<string, Credential>

  datatype Factor = Totp | Recovery

  datatype Failure =
    Storage | Crypto | InvalidUsername | AlreadyConfigured | EnrollmentUnavailable | InvalidTotp | NotConfigured | InvalidFactor

  /** How far an atomic write gets: not to the rename, to the rename but not to the sync of
      the directory, or all the way. Only the last reports success. */
  datatype Write = NotRenamed | NotSynced | Written

  function AfterWrite(files: Files, credential: Credential, write: Write): Files {
    if write == NotRenamed then files else files[credential.username := credential]
  }

  predicate ValidUsername(name: string) {
    && 3 <= |name| <= 32
    && (IsDigit(name[0]) || IsUpper(name[0]) || IsLower(name[0]))
    && forall k :: 0 <= k < |name| ==>
         IsDigit(name[k]) || IsUpper(name[k]) || IsLower(name[k]) || name[k] == '.' || name[k] == '_' || name[k] == '-'
  }

  predicate TotpShape(s: string) {
    |s| == 6 && forall k :: 0 <= k < |s| ==> IsDigit(s[k])
  }

  /** A TOTP is six decimal digits. */
  lemma TotpShapeExactly(s: string)
    ensures TotpShape(s) <==> |s| == 6 && forall c :: c in s ==> c in DIGITS
  {
    forall k | 0 <= k < |s|
      ensures IsDigit(s[k]) <==> s[k] in DIGITS
    {
      DigitListed(s[k]);
    }
  }

  /** A user name is 3 to 32 letters, digits, dots, underscores and dashes, and does not begin
      with one of the last three. */
  lemma ValidUsernameExactly(name: string)
    ensures ValidUsername(name) <==>
              && 3 <= |name| <= 32 && name[0] in ALPHANUMERIC
              && forall c :: c in name ==> c in ALPHANUMERIC || c in "._-"
  {
    forall k | 0 <= k < |name|
      ensures IsDigit(name[k]) || IsUpper(name[k]) || IsLower(name[k]) <==> name[k] in ALPHANUMERIC
      ensures name[k] == '.' || name[k] == '_' || name[k] == '-' <==> name[k] in "._-"
    {
      AlphanumericListed(name[k]);
    }
  }

  /** Where a digest is first listed. */
  function Position(digests: seq<Digest>, d: Digest): (r: Option<nat>)
    ensures r.Some? <==> d in digests
    ensures r.Some? ==> r.value < |digests| && digests[r.value] == d && d !in digests[..r.value]
  {
    if digests == [] then None
    else if digests[0] == d then Some(0)
    else
      var r := Position(digests[1..], d);
      if r.None? then None
      else
        assert digests[..r.value + 1] == [digests[0]] + digests[1..][..r.value];
        Some(r.value + 1)
  }

  /** The digests with the first listing of `d` taken out. */
  function Without(digests: seq<Digest>, d: Digest): seq<Digest>
    requires d in digests
  {
    var i := Position(digests, d).value;
    digests[..i] + digests[i + 1..]
  }

  /** Taking a code out leaves every other code exactly as often. */
  lemma WithoutRemovesOne(digests: seq<Digest>, d: Digest)
    requires d in digests
    ensures multiset(digests) == multiset(Without(digests, d)) + multiset{d}
  {
    var i := Position(digests, d).value;
    assert digests == digests[..i] + [digests[i]] + digests[i + 1..];
  }

  /** How the code digest depends on the user; the root-only key is part of the function. */
  type CodeDigest = (string, string) -> Digest

  /** What the factor checks amount to for one user's credential. */
  datatype Checked = TotpAnswer(valid: bool) | NoCode | UnknownCode | UseCode(digest: Digest)

  /** The digest of the recovery code that a text spells for a user, if it spells one. */
  function CodeTyped(username: string, factor: string, digestOf: CodeDigest): Option<Digest> {
    if TotpShape(factor) || Normalize(factor).None? then None
    else Some(digestOf(username, Normalize(factor).value))
  }

  function Check(credential: Credential, factor: string, totpValid: bool, digestOf: CodeDigest): Checked {
    if TotpShape(factor) then TotpAnswer(totpValid)
    else
      var d := CodeTyped(credential.username, factor, digestOf);
      if d.None? then NoCode
      else if d.value in credential.digests then UseCode(d.value) else UnknownCode
  }

  datatype Pending = Pending(idDigest: Digest, username: string, seed: string, codes: seq<string>, expiresAt: int)

  /** Codes printed from random bytes. */
  function Codes(random: seq<seq<nat>>): seq<string>
    requires forall r :: r in random ==> |r| == 16 && Bytes(r)
  {
    if random == [] then []
    else
      HexIsCanonical(random[0]);
      [Display(Hex(random[0]))] + Codes(random[1..])
  }

  /** The digests stored for the shown codes. */
  function DigestsFor(username: string, codes: seq<string>, digestOf: CodeDigest): Option<seq<Digest>> {
    if codes == [] then Some([])
    else
      var code, rest := Normalize(codes[0]), DigestsFor(username, codes[1..], digestOf);
      if code.None? || rest.None? then None else Some([digestOf(username, code.value)] + rest.value)
  }

  lemma OneMoreStored(username: string, shown: string, code: string, rest: seq<string>, digestOf: CodeDigest)
    requires Normalize(shown) == Some(code) && DigestsFor(username, rest, digestOf).Some?
    ensures DigestsFor(username, [shown] + rest, digestOf)
         == Some([digestOf(username, code)] + DigestsFor(username, rest, digestOf).value)
  {
    assert ([shown] + rest)[1..] == rest;
  }

  /** Every shown code is stored, in order, as the digest of the code it spells. */
  lemma {:induction false} ShownCodesAreStored(username: string, random: seq<seq<nat>>, digestOf: CodeDigest)
    requires forall r :: r in random ==> |r| == 16 && Bytes(r)
    ensures var stored := DigestsFor(username, Codes(random), digestOf);
            && stored.Some? && |stored.value| == |random|
            && forall k :: 0 <= k < |random| ==> stored.value[k] == digestOf(username, Hex(random[k]))
  {
    if random != [] {
      ShownCodeReadsBack(random[0]);
      ShownCodesAreStored(username, random[1..], digestOf);
      OneMoreStored(username, Display(Hex(random[0])), Hex(random[0]), Codes(random[1..]), digestOf);
    }
  }

  /** The request names the pending enrolment in time and its TOTP checks. */
  predicate Confirms(pending: Option<Pending>, idDigest: Digest, totpCode: string, totpValid: bool, now: int) {
    && pending.Some? && 0 <= now < pending.value.expiresAt && idDigest == pending.value.idDigest
    && TotpShape(totpCode) && totpValid
  }

  /** A started enrolment can be confirmed for ten minutes. */
  lemma ConfirmsForTenMinutes(p: Pending, startedAt: int, totpCode: string, now: int)
    requires p.expiresAt == Later(startedAt, ENROLLMENT_TTL) && TotpShape(totpCode)
    ensures Confirms(Some(p), p.idDigest, totpCode, true, now) <==> 0 <= now < I64_MAX && now - startedAt < 600
  {
  }

  class PamMfaManager {
    var files: Files
    var pending: Option<Pending>
    const digestOf: CodeDigest
    const idDigestOf: string -> Digest

    constructor (digestOf: CodeDigest, idDigestOf: string -> Digest)
      ensures files == map[] && pending == None
      ensures this.digestOf == digestOf && this.idDigestOf == idDigestOf
    {
      files := map[];
      pending := None;
      this.digestOf := digestOf;
      this.idDigestOf := idDigestOf;
    }

    /** Begins enrolling the first user, with random material drawn for it. `setupFails` is
        an unreadable store, `randomFails` a failing random source. */
    method StartEnrollment(username: string, now: int, id: string, seed: string, random: seq<seq<nat>>,
                           setupFails: bool, randomFails: bool)
      returns (r: Result<string, Failure>)
      requires |random| == RECOVERY_CODE_COUNT && forall b :: b in random ==> |b| == 16 && Bytes(b)
      modifies this
      ensures files == old(files)
      ensures r.Err? ==> pending == old(pending)
      ensures !ValidUsername(username) ==> r == Err(InvalidUsername)
      ensures ValidUsername(username) && setupFails ==> r == Err(Storage)
      ensures ValidUsername(username) && !setupFails && files != map[] ==> r == Err(AlreadyConfigured)
      ensures ValidUsername(username) && !setupFails && files == map[] && randomFails ==> r == Err(Crypto)
      ensures ValidUsername(username) && !setupFails && files == map[] && !randomFails ==>
                && r == Ok(id)
                && pending == Some(Pending(idDigestOf(id), username, seed, Codes(random), Later(now, ENROLLMENT_TTL)))
    {
      if !ValidUsername(username) {
        return Err(InvalidUsername);
      }
      if setupFails {
        return Err(Storage);
      }
      if files != map[] {
        return Err(AlreadyConfigured);
      }
      if randomFails {
        return Err(Crypto);
      }
      pending := Some(Pending(idDigestOf(id), username, seed, Codes(random), Later(now, ENROLLMENT_TTL)));
      return Ok(id);
    }

    /** Stores the credential once the TOTP checks, and shows the codes exactly when the
        store is durable; `totpValid` is the opaque check of the code against the seed. */
    method ConfirmEnrollment(id: string, totpCode: string, totpValid: bool, now: int, write: Write)
      returns (r: Result<(string, seq<string>), Failure>)
      modifies this
      ensures Confirms(old(pending), idDigestOf(id), totpCode, totpValid, now) ==>
                var p := old(pending).value;
                var stored := DigestsFor(p.username, p.codes, digestOf);
                if stored.None? then r == Err(Crypto) && files == old(files) && pending == old(pending)
                else
                  && files == AfterWrite(old(files), Credential(p.username, p.seed, stored.value), write)
                  && (if write == Written then r == Ok((p.username, p.codes)) && pending == None
                      else r == Err(Storage) && pending == old(pending))
      ensures !Confirms(old(pending), idDigestOf(id), totpCode, totpValid, now) ==>
                && r.Err? && files == old(files)
                && pending == (if TotpShape(totpCode) && old(pending).Some? && old(pending).value.expiresAt <= now
                               then None else old(pending))
    {
      if !TotpShape(totpCode) {
        return Err(InvalidTotp);
      }
      if pending.None? {
        return Err(EnrollmentUnavailable);
      }
      var p := pending.value;
      if p.expiresAt <= now || idDigestOf(id) != p.idDigest {
        if p.expiresAt <= now {
          pending := None;
        }
        return Err(EnrollmentUnavailable);
      }
      if now < 0 {
        return Err(Crypto);
      }
      if !totpValid {
        return Err(InvalidTotp);
      }
      var stored := DigestsFor(p.username, p.codes, digestOf);
      if stored.None? {
        return Err(Crypto);
      }
      files := AfterWrite(files, Credential(p.username, p.seed, stored.value), write);
      if write != Written {
        return Err(Storage);
      }
      pending := None;
      return Ok((p.username, p.codes));
    }

    /** Verifies a TOTP or recovery code. `intact` says the stored credential opens under
        the key; `write` is how far replacing the file gets. */
    method Verify(username: string, factor: string, totpValid: bool, intact: bool, write: Write)
      returns (r: Result<Factor, Failure>)
      modifies this
      ensures pending == old(pending)
      ensures r == Ok(Recovery) ==>
                && username in old(files) && write == Written
                && Check(old(files)[username], factor, totpValid, digestOf).UseCode?
      ensures username in old(files) && old(files)[username].username == username && ValidUsername(username) && intact ==>
                var credential := old(files)[username];
                match Check(credential, factor, totpValid, digestOf)
                case TotpAnswer(valid) => r == (if valid then Ok(Totp) else Err(InvalidFactor)) && files == old(files)
                case NoCode => r == Err(InvalidFactor) && files == old(files)
                case UnknownCode => r == Err(InvalidFactor) && files == old(files)
                case UseCode(d) =>
                  && r == (if write == Written then Ok(Recovery) else Err(Storage))
                  && files == AfterWrite(old(files), credential.(digests := Without(credential.digests, d)), write)
      ensures !(username in old(files) && old(files)[username].username == username && ValidUsername(username) && intact) ==>
                r.Err? && files == old(files)
    {
      if !ValidUsername(username) {
        return Err(InvalidUsername);
      }
      if username !in files {
        return Err(NotConfigured);
      }
      var credential := files[username];
      if credential.username != username || !intact {
        return Err(Storage);
      }
      if TotpShape(factor) {
        return if totpValid then Ok(Totp) else Err(InvalidFactor);
      }
      var code := Normalize(factor);
      if code.None? {
        return Err(InvalidFactor);
      }
      var expected := digestOf(username, code.value);
      if Position(credential.digests, expected).None? {
        return Err(InvalidFactor);
      }
      var rest := credential.(digests := Without(credential.digests, expected));
      files := AfterWrite(files, rest, write);
      return if write == Written then Ok(Recovery) else Err(Storage);
    }
  }

  // ----- One code -----

  /** No two codes of a user share a digest. */
  ghost predicate Injective(digestOf: CodeDigest) {
    forall u, c, c' :: digestOf(u, c) == digestOf(u, c') ==> c == c'
  }

  /** Every spelling of a code shown at enrolment is taken for that code: it is used if the
      code is unused, whatever the spelling, and refused otherwise. */
  lemma EverySpellingUsesTheCode(credential: Credential, bytes: seq<nat>, typed: string, totpValid: bool, digestOf: CodeDigest)
    requires |bytes| == 16 && Bytes(bytes) && Spells(typed, Hex(bytes))
    ensures var d := digestOf(credential.username, Hex(bytes));
            Check(credential, typed, totpValid, digestOf)
            == if d in credential.digests then UseCode(d) else UnknownCode
  {
    PrintedCodeReadsBack(bytes, typed);
    if TotpShape(typed) {
      SpellingIsLong(typed, Hex(bytes));
    }
  }

  lemma {:induction false} SpellingIsLong(typed: string, code: string)
    requires Spells(typed, code)
    ensures |typed| >= |code|
  {
    if typed != "" {
      if typed[0] in SKIPPED {
        SpellingIsLong(typed[1..], code);
      } else {
        SpellingIsLong(typed[1..], code[1..]);
      }
    }
  }

  /** Under distinct digests a used code is gone, and every other code and the sealed seed
      are as before. */
  lemma UsingACodeLeavesTheOthers(credential: Credential, d: Digest)
    requires d in credential.digests && multiset(credential.digests)[d] == 1
    ensures var rest := credential.(digests := Without(credential.digests, d));
            && d !in rest.digests
            && rest.sealedSeed == credential.sealedSeed
            && forall e :: e != d ==> multiset(rest.digests)[e] == multiset(credential.digests)[e]
  {
    WithoutRemovesOne(credential.digests, d);
    var rest := Without(credential.digests, d);
    assert d in rest ==> multiset(rest)[d] > 0;
  }
}
