/**
 The webhook signature header (packages/shared-types/src/webhookSigner.ts), printed
 with one signature a secret and verified with any of the receiver's. HMAC-SHA256
 is an uninterpreted function to 32 bytes, and JavaScript's `Number(s)` one from
 strings to the integers it reads.
 */
module WebhookSigner {
  import opened Results
  import opened Text
  import opened Numerals

  /** (secret, payload) to the digest's bytes. */
  type Mac = (string, string) -> seq<nat>

  /** What `Number(s)` gives when it is an integer. */
  type Reader = string -> Option<int>

  ghost predicate IsDigest(bytes: seq<nat>) {
    |bytes| == 32 && forall i :: 0 <= i < 32 ==> bytes[i] < 256
  }

  ghost predicate IsMac(mac: Mac) {
    forall secret, payload :: IsDigest(mac(secret, payload))
  }

  function Decimal(n: int): string {
    if n < 0 then "-" + Print(-n, 10) else Print(n, 10)
  }

  /** `digest('hex')` */
  function Hex(bytes: seq<nat>): string
    requires forall i :: 0 <= i < |bytes| ==> bytes[i] < 256
  {
    if bytes == [] then "" else [DigitChar(bytes[0] / 16), DigitChar(bytes[0] % 16)] + Hex(bytes[1..])
  }

  /** `Buffer.from(s, 'hex')`: the bytes before the first pair that is not hex. */
  function Unhex(s: string): seq<nat> {
    if |s| < 2 || DigitValue(s[0]) == 16 || DigitValue(s[1]) == 16 then []
    else [DigitValue(s[0]) * 16 + DigitValue(s[1])] + Unhex(s[2..])
  }

  function Payload(timestamp: int, body: string): string {
    Decimal(timestamp) + "." + body
  }

  function Signature(mac: Mac, secret: string, body: string, timestamp: int): string
    requires IsMac(mac)
  {
    assert IsDigest(mac(secret, Payload(timestamp, body)));
    Hex(mac(secret, Payload(timestamp, body)))
  }

  function Signatures(mac: Mac, secrets: seq<string>, body: string, timestamp: int): (signatures: seq<string>)
    requires IsMac(mac)
    ensures |signatures| == |secrets|
  {
    if secrets == [] then [] else
      [Signature(mac, secrets[0], body, timestamp)] + Signatures(mac, secrets[1..], body, timestamp)
  }

  function V1Part(signature: string): string {
    "v1=" + signature
  }

  function Tagged(signatures: seq<string>): (tagged: seq<string>)
    ensures |tagged| == |signatures|
  {
    if signatures == [] then [] else [V1Part(signatures[0])] + Tagged(signatures[1..])
  }

  /** `None` is the error that no secret was given. */
  function SignWebhook(mac: Mac, secrets: seq<string>, body: string, timestamp: int): Option<string>
    requires IsMac(mac)
  {
    if secrets == [] then None
    else Some("t=" + Decimal(timestamp) + "," + Join(Tagged(Signatures(mac, secrets, body, timestamp)), ","))
  }

  // -------------------------------------------------------------------- the parser

  datatype Header = Header(timestamp: int, signatures: seq<string>)

  /** A part of the header, by its key. */
  datatype Part = Time(value: string) | V1(value: string) | Other

  function ReadPart(part: string): Part {
    var separator := Find(part, '=');
    if separator == |part| then Other else
      var key := Trim(part[..separator]);
      if key == "t" then Time(Trim(part[separator + 1..]))
      else if key == "v1" then V1(Trim(part[separator + 1..]))
      else Other
  }

  /** The last `t` that is an integer. */
  function LastTimestamp(number: Reader, parts: seq<string>): Option<int> {
    if parts == [] then None
    else NextTimestamp(number, LastTimestamp(number, parts[..|parts| - 1]), ReadPart(parts[|parts| - 1]))
  }

  function NextTimestamp(number: Reader, before: Option<int>, part: Part): Option<int> {
    if part.Time? && number(part.value).Some? then number(part.value) else before
  }

  /** Every `v1`, in order. */
  function AllSignatures(parts: seq<string>): seq<string> {
    if parts == [] then [] else NextSignatures(AllSignatures(parts[..|parts| - 1]), ReadPart(parts[|parts| - 1]))
  }

  function NextSignatures(before: seq<string>, part: Part): seq<string> {
    if part.V1? then before + [part.value] else before
  }

  lemma {:induction false} SnocReads(number: Reader, parts: seq<string>, last: string)
    ensures LastTimestamp(number, parts + [last]) == NextTimestamp(number, LastTimestamp(number, parts), ReadPart(last))
    ensures AllSignatures(parts + [last]) == NextSignatures(AllSignatures(parts), ReadPart(last))
  {
    assert (parts + [last])[..|parts|] == parts;
  }

  function Parsed(number: Reader, header: string): Option<Header> {
    var parts := Split(header, ',');
    var timestamp, signatures := LastTimestamp(number, parts), AllSignatures(parts);
    if timestamp.None? || signatures == [] then None else Some(Header(timestamp.value, signatures))
  }

  lemma {:induction false} ReadNext(number: Reader, parts: seq<string>, i: nat)
    requires i < |parts|
    ensures LastTimestamp(number, parts[..i + 1])
      == NextTimestamp(number, LastTimestamp(number, parts[..i]), ReadPart(parts[i]))
    ensures AllSignatures(parts[..i + 1]) == NextSignatures(AllSignatures(parts[..i]), ReadPart(parts[i]))
  {
    SnocReads(number, parts[..i], parts[i]);
    assert parts[..i] + [parts[i]] == parts[..i + 1];
  }

  method ParseHeader(number: Reader, header: string) returns (parsed: Option<Header>)
    ensures parsed == Parsed(number, header)
  {
    var timestamp: Option<int> := None;
    var signatures: seq<string> := [];
    var parts := Split(header, ',');
    for i := 0 to |parts|
      invariant timestamp == LastTimestamp(number, parts[..i])
      invariant signatures == AllSignatures(parts[..i])
    {
      ReadNext(number, parts, i);
      var part := ReadPart(parts[i]);
      match part
      case Time(value) =>
        var read := number(value);
        if read.Some? {
          timestamp := read;
        }
      case V1(value) =>
        signatures := signatures + [value];
      case Other =>
    }
    assert parts[..|parts|] == parts;
    return if timestamp.None? || signatures == [] then None else Some(Header(timestamp.value, signatures));
  }

  /** A constant-time comparison of the bytes two hex strings decode to. */
  predicate EqualHex(a: string, b: string) {
    Unhex(a) != [] && Unhex(a) == Unhex(b)
  }

  function Abs(n: int): nat {
    if n < 0 then -n else n
  }

  predicate AmongHex(expected: string, signatures: seq<string>) {
    exists j :: 0 <= j < |signatures| && EqualHex(expected, signatures[j])
  }

  predicate SecretMatches(mac: Mac, secret: string, body: string, parsed: Header)
    requires IsMac(mac)
  {
    secret != "" && AmongHex(Signature(mac, secret, body, parsed.timestamp), parsed.signatures)
  }

  /** Some secret of the receiver gives some signature of the header. */
  predicate SomeMatch(mac: Mac, secrets: seq<string>, body: string, parsed: Header)
    requires IsMac(mac)
  {
    exists i :: 0 <= i < |secrets| && SecretMatches(mac, secrets[i], body, parsed)
  }

  ghost predicate Verified(mac: Mac, number: Reader, secrets: seq<string>, body: string, header: string,
      tolerance: int, now: int)
    requires IsMac(mac)
  {
    var parsed := Parsed(number, header);
    parsed.Some? && Abs(now - parsed.value.timestamp) <= tolerance && SomeMatch(mac, secrets, body, parsed.value)
  }

  lemma {:induction false} MatchSnoc(mac: Mac, secrets: seq<string>, secret: string, body: string, parsed: Header)
    requires IsMac(mac)
    ensures SomeMatch(mac, secrets + [secret], body, parsed) <==>
      SomeMatch(mac, secrets, body, parsed) || SecretMatches(mac, secret, body, parsed)
  {
    var all := secrets + [secret];
    if i :| 0 <= i < |secrets| && SecretMatches(mac, secrets[i], body, parsed) {
      assert all[i] == secrets[i];
    }
    assert all[|secrets|] == secret;
  }

  lemma {:induction false} MatchNext(mac: Mac, secrets: seq<string>, i: nat, body: string, parsed: Header)
    requires IsMac(mac) && i < |secrets|
    ensures SomeMatch(mac, secrets[..i + 1], body, parsed) <==>
      SomeMatch(mac, secrets[..i], body, parsed) || SecretMatches(mac, secrets[i], body, parsed)
  {
    assert secrets[..i + 1] == secrets[..i] + [secrets[i]];
    MatchSnoc(mac, secrets[..i], secrets[i], body, parsed);
  }

  lemma {:induction false} AmongSnoc(expected: string, signatures: seq<string>, j: nat)
    requires j < |signatures|
    ensures AmongHex(expected, signatures[..j + 1]) <==>
      AmongHex(expected, signatures[..j])
      || EqualHex(expected, signatures[j])
  {
    var more := signatures[..j + 1];
    if k :| 0 <= k < j && EqualHex(expected, signatures[..j][k]) {
      assert more[k] == signatures[..j][k];
    }
    if k :| 0 <= k < |more| && EqualHex(expected, more[k]) {
      assert k < j ==> signatures[..j][k] == more[k];
    }
    assert more[j] == signatures[j];
  }

  /** Every comparison runs, whichever of them match. */
  method VerifyWebhook(mac: Mac, number: Reader, secrets: seq<string>, body: string, header: string, tolerance: int,
      now: int) returns (matched: bool)
    requires IsMac(mac)
    ensures matched <==> Verified(mac, number, secrets, body, header, tolerance, now)
  {
    var parsed := ParseHeader(number, header);
    if parsed.None? || Abs(now - parsed.value.timestamp) > tolerance {
      return false;
    }
    matched := CompareAll(mac, secrets, body, parsed.value);
  }

  method CompareAll(mac: Mac, secrets: seq<string>, body: string, parsed: Header) returns (matched: bool)
    requires IsMac(mac)
    ensures matched <==> SomeMatch(mac, secrets, body, parsed)
  {
    var signatures := parsed.signatures;
    matched := false;
    for i := 0 to |secrets|
      invariant matched <==> SomeMatch(mac, secrets[..i], body, parsed)
    {
      ghost var before := matched;
      MatchNext(mac, secrets, i, body, parsed);
      if secrets[i] == "" {
        continue;
      }
      var expected := Signature(mac, secrets[i], body, parsed.timestamp);
      for j := 0 to |signatures|
        invariant matched <==> before || AmongHex(expected, signatures[..j])
      {
        AmongSnoc(expected, signatures, j);
        if EqualHex(expected, signatures[j]) {
          matched := true;
        }
      }
      assert signatures[..|signatures|] == signatures;
    }
    assert secrets[..|secrets|] == secrets;
  }

  // ------------------------------------------------------------ what is signed, read

  lemma {:induction false} UnhexHex(bytes: seq<nat>)
    requires forall i :: 0 <= i < |bytes| ==> bytes[i] < 256
    ensures Unhex(Hex(bytes)) == bytes
  {
    if bytes != [] {
      var s := Hex(bytes);
      assert s[2..] == Hex(bytes[1..]);
      DigitRoundTrip(bytes[0] / 16);
      DigitRoundTrip(bytes[0] % 16);
      UnhexHex(bytes[1..]);
    }
  }

  /** The digits of a header's numbers: nothing the parser takes apart. */
  predicate IsPlain(s: string) {
    forall c :: c in s ==> c == '-' || DigitValue(c) < 16
  }

  lemma {:induction false} HexPlain(bytes: seq<nat>)
    requires forall i :: 0 <= i < |bytes| ==> bytes[i] < 256
    ensures IsPlain(Hex(bytes))
  {
    if bytes != [] {
      DigitRoundTrip(bytes[0] / 16);
      DigitRoundTrip(bytes[0] % 16);
      HexPlain(bytes[1..]);
    }
  }

  lemma {:induction false} DecimalPlain(n: int)
    ensures IsPlain(Decimal(n)) && '.' !in Decimal(n)
  {
  }

  lemma {:induction false} PlainLacks(s: string, c: char)
    requires IsPlain(s) && c != '-' && DigitValue(c) == 16
    ensures c !in s
  {
  }

  lemma {:induction false} PlainTrimmed(s: string)
    requires IsPlain(s)
    ensures Trim(s) == s
  {
    forall c | c in s ensures !IsSpace(c) {
    }
    TrimNone(s);
  }

  lemma {:induction false} TimeReads(value: string)
    requires IsPlain(value)
    ensures ReadPart("t=" + value) == Time(value)
  {
    var key := "t";
    FindAfter(key, '=', value);
    assert "t=" + value == key + ['='] + value;
    assert ("t=" + value)[..1] == key && ("t=" + value)[2..] == value;
    TrimNone(key);
    PlainTrimmed(value);
  }

  lemma {:induction false} V1Reads(value: string)
    requires IsPlain(value)
    ensures ReadPart(V1Part(value)) == V1(value)
  {
    var key := "v1";
    FindAfter(key, '=', value);
    assert "v1=" + value == key + ['='] + value;
    assert ("v1=" + value)[..2] == key && ("v1=" + value)[3..] == value;
    TrimNone(key);
    PlainTrimmed(value);
  }

  lemma {:induction false} TaggedLack(signatures: seq<string>)
    requires forall i :: 0 <= i < |signatures| ==> IsPlain(signatures[i])
    ensures forall p :: p in Tagged(signatures) ==> ',' !in p
  {
    if signatures != [] {
      PlainLacks(signatures[0], ',');
      TaggedLack(signatures[1..]);
    }
  }

  lemma {:induction false} TaggedSnoc(signatures: seq<string>, last: string)
    ensures Tagged(signatures + [last]) == Tagged(signatures) + [V1Part(last)]
  {
    if signatures == [] {
      assert [] + [last] == [last] && [last][1..] == [];
    } else {
      assert (signatures + [last])[1..] == signatures[1..] + [last];
      TaggedSnoc(signatures[1..], last);
    }
  }

  /** A printed header's parts read back, one signature after the other. */
  lemma {:induction false} PartsRead(number: Reader, first: string, timestamp: int, signatures: seq<string>)
    requires forall k :: 0 <= k < |signatures| ==> IsPlain(signatures[k])
    requires ReadPart(first).Time? && number(ReadPart(first).value) == Some(timestamp)
    ensures LastTimestamp(number, [first] + Tagged(signatures)) == Some(timestamp)
    ensures AllSignatures([first] + Tagged(signatures)) == signatures
  {
    if signatures == [] {
      SnocReads(number, [], first);
      assert [] + [first] == [first] + Tagged(signatures);
    } else {
      var n := |signatures| - 1;
      var before, last := signatures[..n], signatures[n];
      assert signatures == before + [last];
      PartsRead(number, first, timestamp, before);
      TaggedSnoc(before, last);
      V1Reads(last);
      SnocReads(number, [first] + Tagged(before), V1Part(last));
      assert [first] + Tagged(signatures) == [first] + Tagged(before) + [V1Part(last)];
    }
  }

  lemma {:induction false} SignaturesPlain(mac: Mac, secrets: seq<string>, body: string, timestamp: int)
    requires IsMac(mac)
    ensures forall i :: 0 <= i < |secrets| ==>
      IsPlain(Signatures(mac, secrets, body, timestamp)[i])
          && Signatures(mac, secrets, body, timestamp)[i] == Signature(mac, secrets[i], body, timestamp)
  {
    if secrets != [] {
      assert IsDigest(mac(secrets[0], Payload(timestamp, body)));
      HexPlain(mac(secrets[0], Payload(timestamp, body)));
      SignaturesPlain(mac, secrets[1..], body, timestamp);
    }
  }

  /** The parser inverts the printed header. */
  lemma {:induction false} HeaderReadsBack(mac: Mac, number: Reader, secrets: seq<string>, body: string, timestamp: int)
    requires IsMac(mac) && secrets != [] && number(Decimal(timestamp)) == Some(timestamp)
    ensures Parsed(number, SignWebhook(mac, secrets, body, timestamp).value)
      == Some(Header(timestamp, Signatures(mac, secrets, body, timestamp)))
  {
    var signatures := Signatures(mac, secrets, body, timestamp);
    var first := "t=" + Decimal(timestamp);
    SignaturesPlain(mac, secrets, body, timestamp);
    TaggedLack(signatures);
    DecimalPlain(timestamp);
    PlainLacks(Decimal(timestamp), ',');
    SplitCons(first, ',', Join(Tagged(signatures), ","));
    SplitJoin(Tagged(signatures), ',');
    TimeReads(Decimal(timestamp));
    PartsRead(number, first, timestamp, signatures);
  }

  /** Two digests are one when their hex forms compare equal. */
  lemma {:induction false} EqualHexIff(a: seq<nat>, b: seq<nat>)
    requires IsDigest(a) && IsDigest(b)
    ensures EqualHex(Hex(a), Hex(b)) <==> a == b
  {
    UnhexHex(a);
    UnhexHex(b);
  }

  /** Some secret of either side gives the digest of what the other side's gives. */
  ghost predicate SharedDigest(mac: Mac, receiver: seq<string>, received: string, signer: seq<string>, signed: string) {
    exists i, j :: 0 <= i < |receiver| && 0 <= j < |signer| && receiver[i] != ""
        && mac(receiver[i], received) == mac(signer[j], signed)
  }

  /**
   A signed header verifies, on whatever body arrives with it, exactly when the
   clock is within the tolerance and a secret of the receiver gives the digest
   that one of the signer's gave.
   */
  lemma {:induction false} VerifiesIff(mac: Mac, number: Reader, signer: seq<string>, signed: string, timestamp: int,
      receiver: seq<string>, received: string, tolerance: int, now: int)
    requires IsMac(mac) && signer != [] && number(Decimal(timestamp)) == Some(timestamp)
    ensures Verified(mac, number, receiver, received, SignWebhook(mac, signer, signed, timestamp).value, tolerance,
      now) <==>
      Abs(now - timestamp) <= tolerance && SharedDigest(mac, receiver, Payload(timestamp, received), signer,
          Payload(timestamp, signed))
  {
    HeaderReadsBack(mac, number, signer, signed, timestamp);
    MatchIff(mac, signer, signed, timestamp, receiver, received);
  }

  lemma {:induction false} MatchIff(mac: Mac, signer: seq<string>, signed: string, timestamp: int,
      receiver: seq<string>, received: string)
    requires IsMac(mac)
    ensures SomeMatch(mac, receiver, received, Header(timestamp, Signatures(mac, signer, signed, timestamp))) <==>
      SharedDigest(mac, receiver, Payload(timestamp, received), signer, Payload(timestamp, signed))
  {
    var signatures := Signatures(mac, signer, signed, timestamp);
    var p, q := Payload(timestamp, received), Payload(timestamp, signed);
    SignaturesPlain(mac, signer, signed, timestamp);
    forall i, j | 0 <= i < |receiver| && 0 <= j < |signer|
      ensures EqualHex(Signature(mac, receiver[i], received, timestamp), signatures[j])
        <==> mac(receiver[i], p) == mac(signer[j], q)
    {
      assert IsDigest(mac(receiver[i], p)) && IsDigest(mac(signer[j], q));
      EqualHexIff(mac(receiver[i], p), mac(signer[j], q));
    }
    if SharedDigest(mac, receiver, p, signer, q) {
      var i, j :| 0 <= i < |receiver| && 0 <= j < |signer| && receiver[i] != ""
          && mac(receiver[i], p) == mac(signer[j], q);
      assert EqualHex(Signature(mac, receiver[i], received, timestamp), signatures[j]);
      assert SecretMatches(mac, receiver[i], received, Header(timestamp, signatures));
    }
  }

  /** During a rotation one secret both sides hold is enough. */
  lemma {:induction false} OneSharedSecret(mac: Mac, number: Reader, signer: seq<string>, body: string,
      timestamp: int, receiver: seq<string>, tolerance: int, now: int, secret: string)
    requires IsMac(mac) && number(Decimal(timestamp)) == Some(timestamp) && Abs(now - timestamp) <= tolerance
    requires secret in signer && secret in receiver && secret != ""
    ensures Verified(mac, number, receiver, body, SignWebhook(mac, signer, body, timestamp).value, tolerance, now)
  {
    VerifiesIff(mac, number, signer, body, timestamp, receiver, body, tolerance, now);
    var i :| 0 <= i < |receiver| && receiver[i] == secret;
    var j :| 0 <= j < |signer| && signer[j] == secret;
    assert mac(receiver[i], Payload(timestamp, body)) == mac(signer[j], Payload(timestamp, body));
  }

  lemma {:induction false} DecimalInjective(m: int, n: int)
    requires Decimal(m) == Decimal(n)
    ensures m == n
  {
    var a, b := if m < 0 then -m else m, if n < 0 then -n else n;
    SignOf(m);
    SignOf(n);
    assert Print(a, 10) == Print(b, 10) by {
      if m < 0 {
        assert Decimal(m)[1..] == Print(a, 10) && Decimal(n)[1..] == Print(b, 10);
      }
    }
    PrintInjective(a, b, 10);
  }

  lemma {:induction false} SignOf(n: int)
    ensures |Decimal(n)| > 0 && (Decimal(n)[0] == '-' <==> n < 0)
  {
    if n >= 0 {
      assert Decimal(n)[0] in Print(n, 10);
    }
  }

  /** The signed payload fixes the time and the body. */
  lemma {:induction false} PayloadInjective(s: int, a: string, t: int, b: string)
    requires Payload(s, a) == Payload(t, b)
    ensures s == t && a == b
  {
    DecimalPlain(s);
    DecimalPlain(t);
    FindAfter(Decimal(s), '.', a);
    FindAfter(Decimal(t), '.', b);
    assert Payload(s, a) == Decimal(s) + ['.'] + a && Payload(t, b) == Decimal(t) + ['.'] + b;
    var n := |Decimal(s)|;
    assert n == |Decimal(t)|;
    assert Decimal(s) == Payload(s, a)[..n] && Decimal(t) == Payload(t, b)[..n];
    assert a == Payload(s, a)[n + 1..] && b == Payload(t, b)[n + 1..];
    DecimalInjective(s, t);
  }
}
