/**
 web/license.py: printing a signed license key and reading it back.

 HMAC and JSON are oracles with their laws: a signature is 64 lower-case hex
 characters, and loading what was dumped gives the payload back. Times are seconds.
 */
module LicenseKey {
  import opened Prelude
  import opened Text
  import B = Base64Url

  const TIER_FEATURES: map<string, seq<string>> := map[
    "free" := ["scan_xss", "scan_sqli", "scan_dns", "scan_whois", "osint_basic", "pdf_report"],
    "pro" := ["scan_xss", "scan_sqli", "scan_dns", "scan_whois", "scan_ssrf", "scan_lfi", "scan_nmap", "scan_ssl",
              "scan_headers", "scan_ports", "scan_subdomain", "scan_redirect", "osint_basic", "osint_advanced",
              "ai_analyze", "nlp_command", "bug_bounty", "compliance", "pdf_report", "api_access", "behavioral_ueba",
              "zero_day_predict", "attack_patterns", "ngfw", "firewall", "vpn", "quantum", "honeypot", "threat_sharing"],
    "enterprise" := ["*", "scan_xss", "scan_sqli", "scan_dns", "scan_whois", "scan_ssrf", "scan_lfi", "scan_nmap", "scan_ssl",
              "scan_headers", "scan_ports", "scan_subdomain", "scan_redirect", "osint_basic", "osint_advanced", "osint_darkweb",
              "ai_analyze", "nlp_command", "bug_bounty", "compliance", "pdf_report", "api_access", "behavioral_ueba",
              "zero_day_predict", "attack_patterns", "ai_red_team", "autonomous_redteam", "attack_navigator", "ngfw",
              "firewall", "vpn", "quantum", "honeypot", "federation", "threat_feed", "ioc_correlations", "threat_sharing",
              "darkweb_intel", "user_management", "multi_node"]
  ]

  datatype TierLimits = TierLimits(maxTargets: int, maxScansDay: int, maxUsers: int)

  const TIER_LIMITS: map<string, TierLimits> := map[
    "free" := TierLimits(3, 10, 1), "pro" := TierLimits(50, 500, 5), "enterprise" := TierLimits(-1, -1, -1)
  ]

  const FULL_SIG_LEN := 64
  const SHORT_SIG_LEN := 16

  datatype Payload = Payload(tier: string, issuedTo: string, email: string, issuedAt: int, expiresAt: int,
                             features: seq<string>, limits: TierLimits)

  datatype Crypto = Crypto(mac: seq<B.byte> -> string, dumps: Payload -> seq<B.byte>, loads: seq<B.byte> -> Option<Payload>)

  predicate IsHex(c: char) {
    '0' <= c <= '9' || 'a' <= c <= 'f'
  }

  ghost predicate Lawful(crypto: Crypto) {
    && (forall data :: |crypto.mac(data)| == FULL_SIG_LEN && forall c | c in crypto.mac(data) :: IsHex(c))
    && (forall p :: crypto.loads(crypto.dumps(p)) == Some(p))
  }

  datatype Verdict = Valid(license: Payload, key: string) | Expired(license: Payload, key: string) | Rejected(why: Why)

  datatype Why = NoKey | BadFormat | NoSeparator | ShortSignature | BadSignature | Malformed | Undecodable

  // ----- Printing -----

  function UpperChar(c: char): char {
    if 'a' <= c <= 'z' then (c as int - 32) as char else c
  }

  function Upper(s: string): string {
    seq(|s|, i requires 0 <= i < |s| => UpperChar(s[i]))
  }

  function IssuedPayload(tier: string, issuedTo: string, email: string, now: int, days: int): Payload
    requires tier in TIER_FEATURES && tier in TIER_LIMITS
  {
    Payload(tier, issuedTo, email, now, now + days * 86400, TIER_FEATURES[tier], TIER_LIMITS[tier])
  }

  function Joined(tierPart: string, b64: string, sig: string): string {
    "OPS4" + ['-'] + (tierPart + ['-'] + (b64 + ['.'] + sig))
  }

  /** `generate_license_key`; None stands for the ValueError of an unknown tier. */
  function Generate(crypto: Crypto, tier: string, issuedTo: string, email: string, now: int, days: int): Option<string> {
    if tier !in TIER_FEATURES || tier !in TIER_LIMITS then None
    else
      var data := crypto.dumps(IssuedPayload(tier, issuedTo, email, now, days));
      Some(Joined(Upper(tier), RStrip(B.Encode(data), B.IsPad), crypto.mac(data)))
  }

  // ----- Reading -----

  function BeforeLast(s: string, c: char): string {
    if s == "" then "" else if s[|s| - 1] == c then s[..|s| - 1] else BeforeLast(s[..|s| - 1], c)
  }

  function AfterLast(s: string, c: char): string {
    if s == "" || s[|s| - 1] == c then "" else AfterLast(s[..|s| - 1], c) + [s[|s| - 1]]
  }

  predicate IsAscii(s: string) {
    forall c | c in s :: c as int < 128
  }

  /** Everything `verify_license_key` does with the two halves around the last dot. */
  function VerifyParts(crypto: Crypto, key: string, b64: string, rawSig: string, now: int, requireFull: bool): Verdict {
    var sig := Lower(rawSig);
    if |sig| == SHORT_SIG_LEN && requireFull then Rejected(ShortSignature)
    else if |sig| != SHORT_SIG_LEN && |sig| != FULL_SIG_LEN then Rejected(BadSignature)
    else
      var data := if IsAscii(b64) then B.Decode(B.Restored(b64)) else None;
      if data.None? then Rejected(Undecodable)
      else
        var full := crypto.mac(data.value);
        if (if |sig| <= |full| then full[..|sig|] else full) != sig then Rejected(BadSignature)
        else
          var p := crypto.loads(data.value);
          if p.None? then Rejected(Malformed)
          else if now > p.value.expiresAt then Expired(p.value, key)
          else Valid(p.value, key)
  }

  /** `verify_license_key`. */
  function Verify(crypto: Crypto, text: string, now: int, requireFull: bool): Verdict {
    var key := Strip(text, IsSpace);
    if key == "" || key == "FREE" then Rejected(NoKey)
    else
      var afterPrefix := After(key, '-');
      var rest := After(afterPrefix, '-');
      if '-' !in key || '-' !in afterPrefix || Before(key, '-') != "OPS4" then Rejected(BadFormat)
      else if '.' !in rest then Rejected(NoSeparator)
      else VerifyParts(crypto, key, BeforeLast(rest, '.'), AfterLast(rest, '.'), now, requireFull)
  }

  // ----- Taking a key apart -----

  lemma {:induction false} SplitAtLast(a: string, c: char, b: string)
    requires c !in b
    ensures BeforeLast(a + [c] + b, c) == a && AfterLast(a + [c] + b, c) == b
    decreases |b|
  {
    var s := a + [c] + b;
    if b == "" {
      assert s[..|s| - 1] == a;
    } else {
      assert s[..|s| - 1] == a + [c] + b[..|b| - 1];
      SplitAtLast(a, c, b[..|b| - 1]);
      assert b == b[..|b| - 1] + [b[|b| - 1]];
    }
  }

  /**
   Reading a joined key finds the same parts again although the payload may hold dashes: the
   first two dashes and the last dot are the separators, whatever the tier segment says.
   */
  lemma VerifyTakesApart(crypto: Crypto, tierPart: string, b64: string, sig: string, now: int, requireFull: bool)
    requires '-' !in tierPart && '.' !in sig && sig != "" && !IsSpace(sig[|sig| - 1])
    ensures var key := Joined(tierPart, b64, sig);
            Verify(crypto, key, now, requireFull) == VerifyParts(crypto, key, b64, sig, now, requireFull)
  {
    hide VerifyParts, Before, After, BeforeLast, AfterLast, Strip;
    var tail := b64 + ['.'] + sig;
    var middle := tierPart + ['-'] + tail;
    var key := Joined(tierPart, b64, sig);
    SplitJoined("OPS4", '-', middle);
    SplitJoined(tierPart, '-', tail);
    SplitAtLast(b64, '.', sig);
    assert key[0] == 'O' && key[|key| - 1] == sig[|sig| - 1] && key[4] == '-';
    NothingToStrip(key);
    assert middle[|tierPart|] == '-' && tail[|b64|] == '.';
  }

  lemma HexIsPlain(sig: string)
    requires forall c | c in sig :: IsHex(c)
    ensures Lower(sig) == sig && '.' !in sig && '-' !in sig
    ensures sig != "" ==> !IsSpace(sig[|sig| - 1])
  {
    assert forall i | 0 <= i < |sig| :: sig[i] in sig;
  }

  lemma TiersHaveNoDash(tier: string)
    requires tier in TIER_FEATURES
    ensures '-' !in Upper(tier)
  {
    assert tier == "free" || tier == "pro" || tier == "enterprise";
    assert '-' !in tier;
    assert forall i | 0 <= i < |tier| :: tier[i] in tier;
  }

  lemma PrintedPayloadDecodes(data: seq<B.byte>)
    ensures var b64 := RStrip(B.Encode(data), B.IsPad);
            '.' !in b64 && IsAscii(b64) && B.Decode(B.Restored(b64)) == Some(data)
  {
    hide B.Decode, B.Encode;
    B.StripThenRestore(data);
    B.DecodeEncode(data);
    EncodingIsAscii(data);
    RStripIsPart(B.Encode(data), B.IsPad);
  }

  lemma SymbolIsAscii(v: B.sextet)
    ensures B.Symbol(v) as int < 128
  {
  }

  lemma {:induction false} EncodingIsAscii(data: seq<B.byte>)
    ensures IsAscii(B.Encode(data))
    decreases |data|
  {
    hide B.Symbol;
    if |data| >= 3 {
      EncodingIsAscii(data[3..]);
    }
    forall v: B.sextet ensures B.Symbol(v) as int < 128 {
      SymbolIsAscii(v);
    }
  }

  // ----- Main results -----

  /**
   A generated key reads back to exactly the payload it was issued with (tier, limits, features,
   identity, dates), as valid until its expiry and as expired after it, full signatures required or not.
   */
  lemma GeneratedKeyVerifies(crypto: Crypto, tier: string, issuedTo: string, email: string, now: int, days: int,
                             later: int, requireFull: bool)
    requires Lawful(crypto) && tier in TIER_FEATURES && tier in TIER_LIMITS
    ensures var key := Generate(crypto, tier, issuedTo, email, now, days);
            var p := IssuedPayload(tier, issuedTo, email, now, days);
            && key.Some?
            && Verify(crypto, key.value, later, requireFull)
               == (if later <= now + days * 86400 then Valid(p, key.value) else Expired(p, key.value))
            && p.tier == tier && p.issuedTo == issuedTo && p.email == email
            && p.issuedAt == now && p.expiresAt == now + days * 86400
            && p.features == TIER_FEATURES[tier] && p.limits == TIER_LIMITS[tier]
  {
    hide Verify, TIER_FEATURES, TIER_LIMITS, Joined, Upper, RStrip, B.Encode, B.Decode, B.Restored, Lower;
    var data := crypto.dumps(IssuedPayload(tier, issuedTo, email, now, days));
    var sig, b64 := crypto.mac(data), RStrip(B.Encode(data), B.IsPad);
    HexIsPlain(sig);
    TiersHaveNoDash(tier);
    PrintedPayloadDecodes(data);
    VerifyTakesApart(crypto, Upper(tier), b64, sig, later, requireFull);
    assert sig[..|sig|] == sig;
  }

  /** A key of the older kind, with the first 16 characters of the signature, still reads back unless full signatures are required. */
  lemma ShortKeyAcceptedIff(crypto: Crypto, tier: string, issuedTo: string, email: string, now: int, days: int,
                            later: int, requireFull: bool)
    requires Lawful(crypto) && tier in TIER_FEATURES && tier in TIER_LIMITS && later <= now + days * 86400
    ensures var p := IssuedPayload(tier, issuedTo, email, now, days);
            var data := crypto.dumps(p);
            var key := Joined(Upper(tier), RStrip(B.Encode(data), B.IsPad), crypto.mac(data)[..SHORT_SIG_LEN]);
            Verify(crypto, key, later, requireFull) == if requireFull then Rejected(ShortSignature) else Valid(p, key)
  {
    hide Verify, TIER_FEATURES, TIER_LIMITS, Joined, Upper, RStrip, B.Encode, B.Decode, B.Restored, Lower;
    var data := crypto.dumps(IssuedPayload(tier, issuedTo, email, now, days));
    var sig, b64 := crypto.mac(data)[..SHORT_SIG_LEN], RStrip(B.Encode(data), B.IsPad);
    assert forall c | c in sig :: c in crypto.mac(data);
    HexIsPlain(sig);
    TiersHaveNoDash(tier);
    PrintedPayloadDecodes(data);
    VerifyTakesApart(crypto, Upper(tier), b64, sig, later, requireFull);
  }

  /** The printed tier is decoration: replacing it changes nothing, the license comes from the signed payload. */
  lemma TierSegmentIsNotTrusted(crypto: Crypto, tierPart: string, other: string, b64: string, sig: string,
                                now: int, requireFull: bool)
    requires '-' !in tierPart && '-' !in other && '.' !in sig && sig != "" && !IsSpace(sig[|sig| - 1])
    ensures var v := Verify(crypto, Joined(tierPart, b64, sig), now, requireFull);
            var w := Verify(crypto, Joined(other, b64, sig), now, requireFull);
            && (v.Valid? <==> w.Valid?) && (v.Expired? <==> w.Expired?) && (v.Rejected? ==> v == w)
            && (!v.Rejected? ==> v.license == w.license)
  {
    hide Verify, Joined;
    VerifyTakesApart(crypto, tierPart, b64, sig, now, requireFull);
    VerifyTakesApart(crypto, other, b64, sig, now, requireFull);
  }

  /** The tiers are printed in capitals. */
  lemma PrintedTiers()
    ensures Upper("free") == "FREE" && Upper("pro") == "PRO" && Upper("enterprise") == "ENTERPRISE"
  {
  }

  lemma UpperReplaces()
    ensures Upper(SMALL_LETTERS) == CAPITALS
  {
  }

  /** Why a text is no key: empty or the word for no key; not in the three parts; without a signature. */
  lemma RejectedForItsShape(crypto: Crypto, text: string, now: int, requireFull: bool)
    ensures var key := Strip(text, IsSpace);
            var v := Verify(crypto, text, now, requireFull);
            && (v == Rejected(NoKey) <==> key == "" || key == "FREE")
            && (v == Rejected(BadFormat) <==> key != "" && key != "FREE" && !exists tierPart, rest :: '-' !in tierPart && key == "OPS4" + ['-'] + (tierPart + ['-'] + rest))
            && (v == Rejected(NoSeparator) <==> exists tierPart, rest :: '-' !in tierPart && '.' !in rest && key == "OPS4" + ['-'] + (tierPart + ['-'] + rest))
  {
    hide VerifyParts;
    var key := Strip(text, IsSpace);
    VerdictOfParts(crypto, key, BeforeLast(After(After(key, '-'), '-'), '.'), AfterLast(After(After(key, '-'), '-'), '.'), now, requireFull);
    if '-' in key && '-' in After(key, '-') {
      JoinFirst(key, '-');
      JoinFirst(After(key, '-'), '-');
    }
    forall tierPart: string, rest: string | '-' !in tierPart && key == "OPS4" + ['-'] + (tierPart + ['-'] + rest)
      ensures Before(key, '-') == "OPS4" && After(key, '-') == tierPart + ['-'] + rest && After(After(key, '-'), '-') == rest
      ensures '-' in key && '-' in After(key, '-') && key != "" && key != "FREE"
    {
      SplitJoined("OPS4", '-', tierPart + ['-'] + rest);
      SplitJoined(tierPart, '-', rest);
      assert key[4] == '-' && (tierPart + ['-'] + rest)[|tierPart|] == '-';
    }
  }

  lemma VerdictOfParts(crypto: Crypto, key: string, b64: string, sig: string, now: int, requireFull: bool)
    ensures VerifyParts(crypto, key, b64, sig, now, requireFull) !in {Rejected(NoKey), Rejected(BadFormat), Rejected(NoSeparator)}
  {
  }

  /** A payload part that is not ASCII is never read. */
  lemma NonAsciiIsRejected(crypto: Crypto, key: string, b64: string, sig: string, now: int, requireFull: bool, c: char)
    requires c in b64 && c as int >= 128
    ensures VerifyParts(crypto, key, b64, sig, now, requireFull).Rejected?
  {
    assert !IsAscii(b64);
  }

  /**
   Nothing is accepted without its signature: whatever text is read as a license, valid or
   expired, its payload was decoded from the key and the key carries that payload's own
   signature, whole, or 16 characters of it where those are still allowed.
   */
  lemma AcceptedCarriesSignature(crypto: Crypto, text: string, now: int, requireFull: bool)
    requires Lawful(crypto) && !Verify(crypto, text, now, requireFull).Rejected?
    ensures var v := Verify(crypto, text, now, requireFull);
            exists tierPart, b64, sig, data ::
              && After(v.key, '-') == tierPart + ['-'] + (b64 + ['.'] + sig)
              && B.Decode(B.Restored(b64)) == Some(data) && crypto.loads(data) == Some(v.license)
              && (Lower(sig) == crypto.mac(data) || (!requireFull && Lower(sig) == crypto.mac(data)[..SHORT_SIG_LEN]))
              && (v.Valid? <==> now <= v.license.expiresAt)
  {
    hide B.Decode, B.Restored, Lower;
    var key := Strip(text, IsSpace);
    var afterPrefix := After(key, '-');
    var rest := After(afterPrefix, '-');
    var b64, sig := BeforeLast(rest, '.'), AfterLast(rest, '.');
    JoinFirst(afterPrefix, '-');
    JoinLast(rest, '.');
    var data := B.Decode(B.Restored(b64)).value;
    assert crypto.mac(data)[..FULL_SIG_LEN] == crypto.mac(data);
    assert |Lower(sig)| == SHORT_SIG_LEN || |Lower(sig)| == FULL_SIG_LEN;
    assert afterPrefix == Before(afterPrefix, '-') + ['-'] + (b64 + ['.'] + sig);
  }

  lemma {:induction false} JoinLast(s: string, c: char)
    requires c in s
    ensures s == BeforeLast(s, c) + [c] + AfterLast(s, c)
  {
    if s[|s| - 1] != c {
      JoinLast(s[..|s| - 1], c);
    }
  }
}
