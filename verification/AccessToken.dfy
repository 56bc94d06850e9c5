/**
  Request-access tokens: a payload and its signature, each in unpadded
  base64url (section 5 of RFC 4648), joined by a dot. The signature function
  and the payload encoding are parameters.
  */
module AccessToken {
  import opened Store

  type Byte = b: int | 0 <= b < 256
  type Sextet = v: int | 0 <= v < 64

  // ----- base64url without padding -----

  function EncodeChar(v: Sextet): char {
    if v < 26 then ('A' as int + v) as char
    else if v < 52 then ('a' as int + v - 26) as char
    else if v < 62 then ('0' as int + v - 52) as char
    else if v == 62 then '-'
    else '_'
  }

  function DecodeChar(c: char): Option<Sextet> {
    if 'A' <= c <= 'Z' then Some(c as int - 'A' as int)
    else if 'a' <= c <= 'z' then Some(c as int - 'a' as int + 26)
    else if '0' <= c <= '9' then Some(c as int - '0' as int + 52)
    else if c == '-' then Some(62)
    else if c == '_' then Some(63)
    else None
  }

  lemma CharRoundTrip(v: Sextet)
    ensures DecodeChar(EncodeChar(v)) == Some(v)
    ensures EncodeChar(v) != '.' && EncodeChar(v) != '\r' && EncodeChar(v) != '\n'
  {
  }

  /** The first one, two or three bytes as sextets. */
  function Sextets(b: seq<Byte>): seq<Sextet>
    requires 1 <= |b| <= 3
  {
    if |b| == 1 then [b[0] / 4, (b[0] % 4) * 16]
    else if |b| == 2 then [b[0] / 4, (b[0] % 4) * 16 + b[1] / 16, (b[1] % 16) * 4]
    else [b[0] / 4, (b[0] % 4) * 16 + b[1] / 16, (b[1] % 16) * 4 + b[2] / 64, b[2] % 64]
  }

  /** Back to bytes; left-over low bits are dropped. */
  function Bytes(v: seq<Sextet>): seq<Byte>
    requires 2 <= |v| <= 4
  {
    var first: Byte := (v[0] as int) * 4 + v[1] / 16;
    if |v| == 2 then [first]
    else
      var second: Byte := (v[1] as int % 16) * 16 + v[2] / 4;
      if |v| == 3 then [first, second] else [first, second, (v[2] as int % 4) * 64 + v[3]]
  }

  lemma BytesUndoSextets(b: seq<Byte>)
    requires 1 <= |b| <= 3
    ensures |Sextets(b)| == |b| + 1 && Bytes(Sextets(b)) == b
  {
  }

  function EncodeAll(v: seq<Sextet>): string {
    seq(|v|, i requires 0 <= i < |v| => EncodeChar(v[i]))
  }

  function Encode(b: seq<Byte>): string {
    if b == [] then ""
    else if |b| <= 3 then EncodeAll(Sextets(b))
    else EncodeAll(Sextets(b[..3])) + Encode(b[3..])
  }

  function DecodeAll(s: string): Option<seq<Sextet>> {
    if s == "" then Some([])
    else
      match (DecodeChar(s[0]), DecodeAll(s[1..]))
      case (Some(v), Some(vs)) => Some([v] + vs)
      case (_, _) => None
  }

  function FromSextets(v: seq<Sextet>): Option<seq<Byte>> {
    if v == [] then Some([])
    else if |v| == 1 then None
    else if |v| <= 4 then Some(Bytes(v))
    else
      match FromSextets(v[4..])
      case Some(rest) => Some(Bytes(v[..4]) + rest)
      case None => None
  }

  function WithoutNewlines(s: string): string {
    if s == "" then ""
    else (if s[0] == '\r' || s[0] == '\n' then "" else [s[0]]) + WithoutNewlines(s[1..])
  }

  /** Decoding skips line breaks and refuses foreign characters and a lone last character. */
  function Decode(s: string): Option<seq<Byte>> {
    match DecodeAll(WithoutNewlines(s))
    case Some(v) => FromSextets(v)
    case None => None
  }

  lemma {:induction false} NewlinesConcat(a: string, b: string)
    ensures WithoutNewlines(a + b) == WithoutNewlines(a) + WithoutNewlines(b)
  {
    if a == "" {
      assert a + b == b;
    } else {
      NewlinesConcat(a[1..], b);
      assert (a + b)[1..] == a[1..] + b && (a + b)[0] == a[0];
    }
  }

  /** Line breaks anywhere in a code do not count. */
  lemma LineBreaksDoNotCount(a: string, b: string)
    ensures Decode(a + "\n" + b) == Decode(a + b) == Decode(a + "\r" + b)
  {
    NewlinesConcat(a + "\n", b);
    NewlinesConcat(a, "\n");
    NewlinesConcat(a + "\r", b);
    NewlinesConcat(a, "\r");
    NewlinesConcat(a, b);
    assert WithoutNewlines("\n") == "" && WithoutNewlines("\r") == "";
    assert WithoutNewlines(a) + "" == WithoutNewlines(a);
  }

  predicate Plain(s: string) {
    forall i | 0 <= i < |s| :: s[i] != '.' && s[i] != '\r' && s[i] != '\n'
  }

  lemma {:induction false} PlainUnchanged(s: string)
    requires Plain(s)
    ensures WithoutNewlines(s) == s
  {
    if s != "" {
      assert Plain(s[1..]);
      PlainUnchanged(s[1..]);
      assert s == [s[0]] + s[1..];
    }
  }

  lemma {:induction false} DecodeAllConcat(v: seq<Sextet>, s: string)
    requires DecodeAll(s).Some?
    ensures DecodeAll(EncodeAll(v) + s) == Some(v + DecodeAll(s).value)
  {
    if v == [] {
      assert EncodeAll(v) + s == s;
      assert v + DecodeAll(s).value == DecodeAll(s).value;
    } else {
      CharRoundTrip(v[0]);
      DecodeAllConcat(v[1..], s);
      assert EncodeAll(v) + s == [EncodeChar(v[0])] + (EncodeAll(v[1..]) + s);
      assert v + DecodeAll(s).value == [v[0]] + (v[1..] + DecodeAll(s).value);
    }
  }

  lemma EncodeAllPlain(v: seq<Sextet>)
    ensures Plain(EncodeAll(v))
  {
    forall i | 0 <= i < |v|
      ensures EncodeAll(v)[i] == EncodeChar(v[i])
      ensures EncodeChar(v[i]) != '.' && EncodeChar(v[i]) != '\r' && EncodeChar(v[i]) != '\n'
    {
      CharRoundTrip(v[i]);
    }
  }

  /** All sextets of a byte string, in order. */
  function AllSextets(b: seq<Byte>): seq<Sextet> {
    if b == [] then []
    else if |b| <= 3 then Sextets(b)
    else Sextets(b[..3]) + AllSextets(b[3..])
  }

  lemma {:induction false} EncodeIsPlain(b: seq<Byte>)
    ensures Plain(Encode(b)) && DecodeAll(Encode(b)) == Some(AllSextets(b))
  {
    if 1 <= |b| <= 3 {
      EncodeAllPlain(Sextets(b));
      DecodeAllConcat(Sextets(b), "");
      assert EncodeAll(Sextets(b)) + "" == EncodeAll(Sextets(b));
      assert Sextets(b) + [] == Sextets(b);
    } else if |b| > 3 {
      EncodeAllPlain(Sextets(b[..3]));
      EncodeIsPlain(b[3..]);
      DecodeAllConcat(Sextets(b[..3]), Encode(b[3..]));
    }
  }

  lemma {:induction false} SextetsRoundTrip(b: seq<Byte>)
    ensures FromSextets(AllSextets(b)) == Some(b)
    ensures |b| > 0 ==> |AllSextets(b)| >= 2
  {
    if 1 <= |b| <= 3 {
      BytesUndoSextets(b);
    } else if |b| > 3 {
      BytesUndoSextets(b[..3]);
      SextetsRoundTrip(b[3..]);
      var v := AllSextets(b);
      assert v[..4] == Sextets(b[..3]) && v[4..] == AllSextets(b[3..]);
      assert b == b[..3] + b[3..];
    }
  }

  /** Decoding undoes encoding on every byte string, and the code contains no dot. */
  lemma Base64RoundTrip(b: seq<Byte>)
    ensures Decode(Encode(b)) == Some(b)
    ensures forall i | 0 <= i < |Encode(b)| :: Encode(b)[i] != '.'
  {
    EncodeIsPlain(b);
    PlainUnchanged(Encode(b));
    SextetsRoundTrip(b);
  }

  /** Vectors of section 10 of RFC 4648, without padding, and one that uses both special characters. */
  lemma EncodeVectors()
    ensures Encode([]) == "" && Encode([102]) == "Zg" && Encode([102, 111]) == "Zm8"
    ensures Encode([102, 111, 111]) == "Zm9v" && Encode([102, 111, 111, 98]) == "Zm9vYg"
    ensures Encode([251, 255]) == "-_8"
  {
    var four: seq<Byte> := [102, 111, 111, 98];
    assert four[..3] == [102, 111, 111] && four[3..] == [98];
    assert Sextets([102]) == [25, 32] && Sextets([102, 111]) == [25, 38, 60];
    assert Sextets([102, 111, 111]) == [25, 38, 61, 47] && Sextets([98]) == [24, 32];
    assert Sextets([251, 255]) == [62, 63, 60];
  }

  // ----- tokens -----

  datatype Claims = Claims(resourceType: string, contract: string, tenantID: string, userID: string, exp: int)

  /** What validation reads out of a payload; a missing or non-string entry is `None`. */
  datatype Identity = Identity(tenantID: Option<string>, userID: Option<string>)

  datatype Codec = Codec(marshal: Claims -> seq<Byte>, unmarshal: seq<Byte> -> Option<Identity>, mac: seq<Byte> -> seq<Byte>)
  {
    /** Reading back a written payload finds the tenant and user that were written. */
    ghost predicate Faithful() {
      forall c :: unmarshal(marshal(c)) == Some(Identity(Some(c.tenantID), Some(c.userID)))
    }
  }

  function RequestToken(k: Codec, c: Claims): string {
    var raw := k.marshal(c);
    Encode(raw) + ("." + Encode(k.mac(raw)))
  }

  /** The parts before and after the first dot. */
  function SplitAtDot(token: string): Option<(string, string)> {
    if token == "" then None
    else if token[0] == '.' then Some(("", token[1..]))
    else
      match SplitAtDot(token[1..])
      case Some((a, b)) => Some(([token[0]] + a, b))
      case None => None
  }

  lemma {:induction false} SplitAtFirst(token: string, i: nat)
    requires i < |token| && token[i] == '.' && forall j | 0 <= j < i :: token[j] != '.'
    ensures SplitAtDot(token) == Some((token[..i], token[i + 1..]))
  {
    if i > 0 {
      SplitAtFirst(token[1..], i - 1);
      assert token[..i] == [token[0]] + token[1..][..i - 1];
    }
  }

  lemma {:induction false} NoDotNoSplit(token: string)
    requires forall j | 0 <= j < |token| :: token[j] != '.'
    ensures SplitAtDot(token).None?
  {
    if token != "" {
      NoDotNoSplit(token[1..]);
    }
  }

  /** Scans for the first dot. */
  method SplitToken(token: string) returns (parts: Option<(string, string)>)
    ensures parts == SplitAtDot(token)
  {
    for i := 0 to |token|
      invariant forall j | 0 <= j < i :: token[j] != '.'
    {
      if token[i] == '.' {
        SplitAtFirst(token, i);
        return Some((token[..i], token[i + 1..]));
      }
    }
    NoDotNoSplit(token);
    parts := None;
  }

  /** Whether a token is good for a tenant and user. */
  predicate Validates(k: Codec, token: string, tenantID: string, userID: string) {
    match SplitAtDot(token)
    case None => false
    case Some((a, b)) =>
      match (Decode(a), Decode(b))
      case (Some(raw), Some(sig)) =>
        sig == k.mac(raw) && k.unmarshal(raw) == Some(Identity(Some(tenantID), Some(userID)))
      case (_, _) => false
  }

  /** The token is a coded payload, a dot, and the coded signature of that very payload. */
  ghost predicate IsSigned(k: Codec, token: string, a: string, b: string) {
    && token == a + "." + b && '.' !in a
    && Decode(a).Some? && Decode(b).Some? && Decode(b).value == k.mac(Decode(a).value)
  }

  /**
    Accepts a token for a tenant and user exactly when it is a payload signed as
    above and the payload names both.
    */
  method ValidateRequestAccessToken(k: Codec, token: string, tenantID: string, userID: string) returns (ok: bool)
    ensures ok == Validates(k, token, tenantID, userID)
    ensures ok <==> exists a, b ::
              && IsSigned(k, token, a, b)
              && k.unmarshal(Decode(a).value) == Some(Identity(Some(tenantID), Some(userID)))
  {
    AcceptedIff(k, token, tenantID, userID);
    var parts := SplitToken(token);
    if parts.None? {
      return false;
    }
    var raw, sig := Decode(parts.value.0), Decode(parts.value.1);
    if raw.None? || sig.None? {
      return false;
    }
    if sig.value != k.mac(raw.value) {
      return false;
    }
    var payload := k.unmarshal(raw.value);
    if payload.None? {
      return false;
    }
    ok := payload.value.tenantID == Some(tenantID) && payload.value.userID == Some(userID);
  }

  lemma {:induction false} SplitsAt(token: string)
    ensures match SplitAtDot(token)
            case Some((a, b)) => token == a + "." + b && '.' !in a
            case None => '.' !in token
  {
    if token != "" && token[0] != '.' {
      SplitsAt(token[1..]);
      assert token == [token[0]] + token[1..];
    }
  }

  lemma OnlySplit(token: string, a: string, b: string)
    requires token == a + "." + b && '.' !in a
    ensures SplitAtDot(token) == Some((a, b))
  {
    assert token[|a|] == '.';
    assert forall j | 0 <= j < |a| :: token[j] == a[j] && a[j] in a;
    SplitAtFirst(token, |a|);
    assert token[..|a|] == a && token[|a| + 1..] == b;
  }

  lemma AcceptedIff(k: Codec, token: string, tenantID: string, userID: string)
    ensures Validates(k, token, tenantID, userID)
            <==> exists a, b ::
                   && IsSigned(k, token, a, b)
                   && k.unmarshal(Decode(a).value) == Some(Identity(Some(tenantID), Some(userID)))
  {
    SplitsAt(token);
    if Validates(k, token, tenantID, userID) {
      var parts := SplitAtDot(token).value;
      assert IsSigned(k, token, parts.0, parts.1);
    }
    if a, b :| IsSigned(k, token, a, b) && k.unmarshal(Decode(a).value) == Some(Identity(Some(tenantID), Some(userID))) {
      OnlySplit(token, a, b);
    }
  }

  /** A payload under any other signature, an empty one included, is refused for everybody. */
  lemma ForgedIsRefused(k: Codec, raw: seq<Byte>, sig: seq<Byte>, tenantID: string, userID: string)
    requires sig != k.mac(raw)
    ensures !Validates(k, Encode(raw) + "." + Encode(sig), tenantID, userID)
  {
    Base64RoundTrip(raw);
    Base64RoundTrip(sig);
    OnlySplit(Encode(raw) + "." + Encode(sig), Encode(raw), Encode(sig));
  }

  /** A token validates for the tenant and user it was issued to, and for nobody else; its expiry plays no part. */
  lemma TokenValidatesIff(k: Codec, c: Claims, tenantID: string, userID: string)
    requires k.Faithful()
    ensures Validates(k, RequestToken(k, c), tenantID, userID) <==> tenantID == c.tenantID && userID == c.userID
  {
    var raw := k.marshal(c);
    var a, b := Encode(raw), Encode(k.mac(raw));
    var token := RequestToken(k, c);
    Base64RoundTrip(raw);
    Base64RoundTrip(k.mac(raw));
    assert token == a + ("." + b) && token[|a|] == '.';
    SplitAtFirst(token, |a|);
    assert token[..|a|] == a && token[|a| + 1..] == b;
  }
}
