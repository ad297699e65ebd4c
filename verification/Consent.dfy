/** Signed single-use consent receipts: issuing, the checks of a verification, and the shared store of used receipts. */
module Consent {
  import opened Base64Url
  import opened Options

  /** A JSON value of the payload list. `Other` is any value that is neither an integer nor a string, with its text form
      and whether it compares equal to one. */
  datatype Claim = Whole(n: int) | Text(text: string) | Other(repr: string, isOne: bool)

  /** The primitives, with JSON, hashing and signing left abstract. */
  datatype Primitives = Primitives(
    utf8: string -> seq<Byte>,
    mac: (seq<Byte>, seq<Byte>) -> seq<Byte>,
    digest: string -> string,
    actorReference: (string, string) -> string,
    show: int -> string,
    dump: seq<Claim> -> seq<Byte>,
    load: seq<Byte> -> Option<seq<Claim>>)

  predicate IsAscii(s: string) {
    forall i :: 0 <= i < |s| ==> s[i] as int < 128
  }

  predicate IsDigest(s: string) {
    |s| == 64 && forall i :: 0 <= i < 64 ==> '0' <= s[i] <= '9' || 'a' <= s[i] <= 'f'
  }

  /** The facts about hashing and signing that the code relies on: a signature is never empty, an actor reference is
      ASCII. */
  ghost predicate Lawful(p: Primitives) {
    && (forall k, m :: p.mac(k, m) != [])
    && (forall a, b :: IsAscii(p.actorReference(a, b)))
  }

  /** The fact about JSON: what is dumped is not empty and loads again. */
  ghost predicate Reloads(p: Primitives, c: seq<Claim>) {
    p.load(p.dump(c)) == Some(c) && p.dump(c) != []
  }

  const PREFIX := "nwc1"
  const CONTEXT := "nws-coordinate-consent-v1\0"
  const SCOPE := "APPROXIMATE_LOCATION_QUERY"
  const MAX_RECEIPT := 512

  /** Whole seconds of a time in microseconds, truncated toward zero. */
  function Seconds(micros: int): int {
    if micros >= 0 then micros / 1_000_000 else -(-micros / 1_000_000)
  }

  datatype Binding = Binding(consumer: string, project: string, route: string, purpose: string)

  function Signature(p: Primitives, key: string, encoded: string): seq<Byte> {
    p.mac(p.utf8(key), p.utf8(CONTEXT) + p.utf8(encoded))
  }

  function ReceiptFor(p: Primitives, key: string, payload: seq<Byte>): string {
    PREFIX + "." + (Encode(payload) + "." + Encode(Signature(p, key, Encode(payload))))
  }

  // ---- issuing ------------------------------------------------------------------------

  datatype IssueError = NoTimezone | NotAfterIssue | WeakKey | TooLong

  datatype Issued = Receipt(text: string) | Refused(error: IssueError)

  function Claims(p: Primitives, b: Binding, actor: string, issued: int, expires: int): seq<Claim> {
    [Whole(1), Text(b.consumer), Text(b.project), Text(b.route), Text(b.purpose), Whole(Seconds(issued)), Whole(Seconds(expires)),
     Text(p.actorReference(b.project, actor))]
  }

  /** A time without a timezone is None. */
  function Issue(p: Primitives, key: string, b: Binding, actor: string, issued: Option<int>, expires: Option<int>): Issued {
    if issued.None? || expires.None? then Refused(NoTimezone)
    else if expires.value <= issued.value then Refused(NotAfterIssue)
    else if |p.utf8(key)| < 32 then Refused(WeakKey)
    else
      var receipt := ReceiptFor(p, key, p.dump(Claims(p, b, actor, issued.value, expires.value)));
      if |receipt| > MAX_RECEIPT then Refused(TooLong) else Receipt(receipt)
  }

  // ---- verifying ------------------------------------------------------------------------

  datatype Verifier = Verifier(key: string, actor: string, issued: Option<int>, expires: Option<int>)

  datatype Request = Request(receipt: string, binding: Binding, actorReference: string, scope: string, now: Option<int>, maxAge: int)

  datatype Verified = Verified(digest: string, capturedAt: int, binding: Binding, actorReference: string, scope: string)

  /** The parts of a text between its dots. */
  function Parts(s: string): (parts: seq<string>)
    ensures parts != []
  {
    if s == "" then [""]
    else
      var rest := Parts(s[1..]);
      if s[0] == '.' then [""] + rest else [[s[0]] + rest[0]] + rest[1..]
  }

  /** The constant-time comparison refuses text that is not ASCII. */
  predicate SameText(a: string, b: string) {
    IsAscii(a) && IsAscii(b) && a == b
  }

  function Shown(p: Primitives, c: Claim): string {
    match c
    case Whole(n) => p.show(n)
    case Text(t) => t
    case Other(repr, _) => repr
  }

  predicate EqualsOne(c: Claim) {
    c == Whole(1) || (c.Other? && c.isOne)
  }

  /** The payload of a correctly signed receipt. */
  function SignedPayload(p: Primitives, key: string, receipt: string): Option<seq<Byte>> {
    var parts := Parts(receipt);
    if !IsAscii(receipt) || |receipt| > MAX_RECEIPT || |parts| != 3 || parts[0] != PREFIX then None
    else if Decode(parts[2]) != Some(Signature(p, key, parts[1])) then None
    else Decode(parts[1])
  }

  predicate ClaimsMatch(p: Primitives, v: Verifier, q: Request, c: seq<Claim>) {
    && |c| == 8 && EqualsOne(c[0]) && c[5].Whole? && c[6].Whole?
    && v.issued.Some? && v.expires.Some? && q.now.Some?
    && SameText(Shown(p, c[1]), q.binding.consumer)
    && SameText(Shown(p, c[2]), q.binding.project)
    && SameText(Shown(p, c[3]), q.binding.route)
    && SameText(Shown(p, c[4]), q.binding.purpose)
    && SameText(Shown(p, c[7]), p.actorReference(q.binding.project, v.actor))
    && SameText(q.actorReference, "actor_" + p.actorReference(q.binding.project, v.actor))
    && SameText(q.scope, SCOPE)
    && Seconds(v.issued.value) == c[5].n && Seconds(v.expires.value) == c[6].n
  }

  predicate TimesHold(issued: int, expires: int, now: int, maxAge: int) {
    issued < expires && now < expires * 1_000_000 && expires - issued <= maxAge
  }

  /** Every check before the receipt is consumed. */
  function Check(p: Primitives, v: Verifier, q: Request): Option<Verified> {
    var payload := SignedPayload(p, v.key, q.receipt);
    var claims := if payload.None? then None else p.load(payload.value);
    if claims.None? || !ClaimsMatch(p, v, q, claims.value) then None
    else if !TimesHold(claims.value[5].n, claims.value[6].n, q.now.value, q.maxAge) then None
    else Some(Verified(p.digest(q.receipt), claims.value[5].n, q.binding, q.actorReference, q.scope))
  }

  // ---- the store of used receipts ---------------------------------------------------------

  /** How the store can fail: before the object is created, or after it, with the answer lost. */
  datatype Fault = NoFault | LostBefore | LostAfter

  datatype Consumed = Fresh | AlreadyUsed | Down

  datatype Outcome = Accepted(consent: Verified) | Rejected | Unavailable

  /** One conditional create. */
  function Created(used: set<string>, digest: string, fault: Fault): (Consumed, set<string>) {
    if !IsDigest(digest) || fault.LostBefore? then (Down, used)
    else if fault.LostAfter? then (Down, used + {digest})
    else if digest in used then (AlreadyUsed, used)
    else (Fresh, used + {digest})
  }

  function Verification(p: Primitives, v: Verifier, q: Request, used: set<string>, fault: Fault): (Outcome, set<string>) {
    match Check(p, v, q)
    case None => (Rejected, used)
    case Some(consent) =>
      var (consumed, used') := Created(used, consent.digest, fault);
      (match consumed case Fresh => Accepted(consent) case AlreadyUsed => Rejected case Down => Unavailable, used')
  }

  /** One receipt, one use: what becomes of an attempt, by what the checks, the store and its failures say. */
  lemma VerificationIs(p: Primitives, v: Verifier, q: Request, used: set<string>, fault: Fault)
    ensures var (outcome, used') := Verification(p, v, q, used, fault);
            var d := p.digest(q.receipt);
            var digest := |d| == 64 && forall i :: 0 <= i < 64 ==> d[i] in "0123456789abcdef";
            && (outcome.Accepted? <==> Check(p, v, q).Some? && digest && fault == NoFault && d !in used)
            && (outcome.Rejected? <==> Check(p, v, q).None? || (digest && fault == NoFault && d in used))
            && (outcome.Accepted? ==> Some(outcome.consent) == Check(p, v, q))
            && used' == if Check(p, v, q).Some? && digest && fault != LostBefore then used + {d} else used
  {
    CheckDigest(p, v, q);
    HexDigits(p.digest(q.receipt));
    hide Check;
    assert p.digest(q.receipt) in used ==> used + {p.digest(q.receipt)} == used;
  }

  lemma HexDigits(s: string)
    ensures IsDigest(s) <==> |s| == 64 && forall i :: 0 <= i < 64 ==> s[i] in "0123456789abcdef"
  {
    var hex := "0123456789abcdef";
    forall c: char ensures c in hex <==> '0' <= c <= '9' || 'a' <= c <= 'f' {
      if '0' <= c <= '9' {
        assert hex[c as int - '0' as int] == c;
      }
      if 'a' <= c <= 'f' {
        assert hex[10 + c as int - 'a' as int] == c;
      }
    }
  }

  class ReceiptStore {
    var used: set<string>

    constructor ()
      ensures used == {}
    {
      used := {};
    }

    method Consume(digest: string, fault: Fault) returns (consumed: Consumed)
      modifies this
      ensures (consumed, used) == Created(old(used), digest, fault)
    {
      if !IsDigest(digest) || fault.LostBefore? {
        return Down;
      }
      if digest in used {
        assert used + {digest} == used;
        return if fault.LostAfter? then Down else AlreadyUsed;
      }
      used := used + {digest};
      return if fault.LostAfter? then Down else Fresh;
    }

    method VerifyAndConsume(p: Primitives, v: Verifier, q: Request, fault: Fault) returns (outcome: Outcome)
      modifies this
      ensures (outcome, used) == Verification(p, v, q, old(used), fault)
      ensures Check(p, v, q).None? ==> outcome == Rejected && used == old(used)
      ensures outcome.Accepted? ==> p.digest(q.receipt) !in old(used) && p.digest(q.receipt) in used
      ensures outcome.Accepted? ==>
                && v.issued.Some? && v.expires.Some? && q.now.Some?
                && Seconds(v.issued.value) < Seconds(v.expires.value) && q.now.value < Seconds(v.expires.value) * 1_000_000
                && Seconds(v.expires.value) - Seconds(v.issued.value) <= q.maxAge
    {
      if Check(p, v, q).Some? {
        AcceptedWasSigned(p, v, q);
      }
      hide Check, Seconds;
      CheckDigest(p, v, q);
      var checked := Check(p, v, q);
      if checked.None? {
        return Rejected;
      }
      var consumed := Consume(checked.value.digest, fault);
      match consumed
      case Fresh => return Accepted(checked.value);
      case AlreadyUsed => return Rejected;
      case Down => return Unavailable;
    }
  }

  // ---- the form of a receipt -----------------------------------------------------------------

  lemma {:induction false} NoDotIsOnePart(s: string)
    requires '.' !in s
    ensures Parts(s) == [s]
  {
    if s != "" {
      NoDotIsOnePart(s[1..]);
      assert [s[0]] + s[1..] == s;
    }
  }

  lemma {:induction false} PartsAtDot(a: string, b: string)
    requires '.' !in a
    ensures Parts(a + "." + b) == [a] + Parts(b)
  {
    var s := a + "." + b;
    if a == "" {
      assert s[1..] == b;
    } else {
      PartsAtDot(a[1..], b);
      assert s[1..] == a[1..] + "." + b && [a[0]] + a[1..] == a;
    }
  }

  /** The parts, with a dot before each of them but the first. */
  function Dotted(parts: seq<string>): string
    requires parts != []
  {
    if |parts| == 1 then parts[0] else parts[0] + "." + Dotted(parts[1..])
  }

  lemma {:induction false} DottedParts(s: string)
    ensures Dotted(Parts(s)) == s
  {
    if s != "" {
      DottedParts(s[1..]);
      var rest := Parts(s[1..]);
      if s[0] == '.' {
        assert ([""] + rest)[1..] == rest;
        assert "" + "." + Dotted(rest) == [s[0]] + s[1..];
      } else {
        var parts := [[s[0]] + rest[0]] + rest[1..];
        assert parts[1..] == rest[1..];
        assert s == [s[0]] + s[1..];
      }
    }
  }

  lemma ThreeParts(s: string, a: string, b: string, c: string)
    requires Parts(s) == [a, b, c]
    ensures s == a + "." + (b + "." + c)
  {
    DottedParts(s);
    var parts := [a, b, c];
    assert parts[1..] == [b, c] && [b, c][1..] == [c];
    assert Dotted([c]) == c && Dotted([b, c]) == b + "." + c;
  }

  /** A receipt with a valid signature is, letter for letter, the one that issuing its payload would give. */
  lemma SignedIsCanonical(p: Primitives, key: string, receipt: string)
    requires SignedPayload(p, key, receipt).Some?
    ensures receipt == ReceiptFor(p, key, SignedPayload(p, key, receipt).value)
  {
    var parts := Parts(receipt);
    EncodeOfDecode(parts[1]);
    EncodeOfDecode(parts[2]);
    assert parts == [parts[0], parts[1], parts[2]];
    ThreeParts(receipt, parts[0], parts[1], parts[2]);
    hide Decode, Encode, Parts;
  }

  /** No two spellings of a receipt are accepted: the same payload under the same key is the same text. */
  lemma OneSpelling(p: Primitives, key: string, r: string, r': string)
    requires SignedPayload(p, key, r).Some? && SignedPayload(p, key, r) == SignedPayload(p, key, r')
    ensures r == r'
  {
    hide *;
    SignedIsCanonical(p, key, r);
    SignedIsCanonical(p, key, r');
  }

  lemma EncodedText(bytes: seq<Byte>)
    ensures IsAscii(Encode(bytes)) && '.' !in Encode(bytes)
  {
    RawOfEncode(bytes);
    hide Encode, Raw;
  }

  lemma AsciiAppend(a: string, b: string)
    requires IsAscii(a) && IsAscii(b)
    ensures IsAscii(a + b)
  {}

  lemma PrefixText()
    ensures IsAscii(PREFIX) && '.' !in PREFIX && IsAscii(".") && IsAscii(SCOPE) && IsAscii("actor_")
  {}

  lemma ReceiptText(p: Primitives, key: string, payload: seq<Byte>)
    ensures IsAscii(ReceiptFor(p, key, payload))
    ensures Parts(ReceiptFor(p, key, payload)) == [PREFIX, Encode(payload), Encode(Signature(p, key, Encode(payload)))]
  {
    hide Encode, Signature, Parts, IsAscii, PREFIX;
    var a, b := Encode(payload), Encode(Signature(p, key, Encode(payload)));
    EncodedText(payload);
    EncodedText(Signature(p, key, Encode(payload)));
    PrefixText();
    AsciiAppend(a, ".");
    AsciiAppend(a + ".", b);
    AsciiAppend(PREFIX, ".");
    AsciiAppend(PREFIX + ".", a + "." + b);
    PartsAtDot(PREFIX, a + "." + b);
    PartsAtDot(a, b);
    NoDotIsOnePart(b);
  }

  /** What is signed comes back. */
  lemma PayloadOfReceipt(p: Primitives, key: string, payload: seq<Byte>)
    requires Lawful(p) && payload != [] && |ReceiptFor(p, key, payload)| <= MAX_RECEIPT
    ensures SignedPayload(p, key, ReceiptFor(p, key, payload)) == Some(payload)
  {
    ReceiptText(p, key, payload);
    DecodeOfEncode(payload);
    DecodeOfEncode(Signature(p, key, Encode(payload)));
    SignatureExists(p, key, Encode(payload));
    hide Encode, Decode, Signature, Parts, ReceiptFor, IsAscii, Lawful;
  }

  lemma SignatureExists(p: Primitives, key: string, encoded: string)
    requires Lawful(p)
    ensures Signature(p, key, encoded) != []
  {}

  // ---- issued receipts verify -------------------------------------------------------------------

  lemma ClaimsAre(p: Primitives, b: Binding, actor: string, issued: int, expires: int)
    ensures var c := Claims(p, b, actor, issued, expires);
            && |c| == 8 && c[0] == Whole(1) && c[1] == Text(b.consumer) && c[2] == Text(b.project) && c[3] == Text(b.route)
            && c[4] == Text(b.purpose) && c[5] == Whole(Seconds(issued)) && c[6] == Whole(Seconds(expires))
            && c[7] == Text(p.actorReference(b.project, actor))
  {
    hide Seconds;
  }

  /** The texts that the comparison has to accept. */
  predicate AsciiBinding(b: Binding) {
    IsAscii(b.consumer) && IsAscii(b.project) && IsAscii(b.route) && IsAscii(b.purpose)
  }

  lemma ActorText(p: Primitives, project: string, actor: string)
    requires Lawful(p)
    ensures IsAscii(p.actorReference(project, actor)) && IsAscii("actor_" + p.actorReference(project, actor)) && IsAscii(SCOPE)
  {
    PrefixText();
    AsciiAppend("actor_", p.actorReference(project, actor));
  }

  lemma OwnClaimsMatch(p: Primitives, v: Verifier, q: Request)
    requires Lawful(p) && v.issued.Some? && v.expires.Some? && q.now.Some? && q.scope == SCOPE
    requires q.actorReference == "actor_" + p.actorReference(q.binding.project, v.actor)
    ensures ClaimsMatch(p, v, q, Claims(p, q.binding, v.actor, v.issued.value, v.expires.value)) <==> AsciiBinding(q.binding)
  {
    hide IsAscii, Lawful, Seconds, SCOPE, Claims;
    ActorText(p, q.binding.project, v.actor);
    ClaimsAre(p, q.binding, v.actor, v.issued.value, v.expires.value);
  }

  lemma IssuedForm(p: Primitives, key: string, b: Binding, actor: string, issued: Option<int>, expires: Option<int>)
    requires Issue(p, key, b, actor, issued, expires).Receipt?
    ensures issued.Some? && expires.Some?
    ensures var r := Issue(p, key, b, actor, issued, expires).text;
            r == ReceiptFor(p, key, p.dump(Claims(p, b, actor, issued.value, expires.value))) && |r| <= MAX_RECEIPT
  {
    hide ReceiptFor, Claims;
  }

  /** For its own bindings an issued receipt passes the checks exactly while its whole-second lifetime is positive, no
      longer than the maximum age, and not over, and as long as the bindings are ASCII. */
  lemma IssuedVerifiesIff(p: Primitives, v: Verifier, q: Request)
    requires Lawful(p) && q.now.Some? && q.scope == SCOPE && v.issued.Some? && v.expires.Some?
    requires Reloads(p, Claims(p, q.binding, v.actor, v.issued.value, v.expires.value))
    requires Issue(p, v.key, q.binding, v.actor, v.issued, v.expires) == Receipt(q.receipt)
    requires q.actorReference == "actor_" + p.actorReference(q.binding.project, v.actor)
    ensures var b, issued, expires := q.binding, Seconds(v.issued.value), Seconds(v.expires.value);
            Check(p, v, q).Some? <==>
            && (forall t, i :: t in [b.consumer, b.project, b.route, b.purpose] && 0 <= i < |t| ==> t[i] as int < 128)
            && issued < expires && q.now.value < expires * 1_000_000 && expires - issued <= q.maxAge
  {
    AsciiTexts(q.binding);
    TimesAre(Seconds(v.issued.value), Seconds(v.expires.value), q.now.value, q.maxAge);
    hide *;
    IssuedForm(p, v.key, q.binding, v.actor, v.issued, v.expires);
    var claims := Claims(p, q.binding, v.actor, v.issued.value, v.expires.value);
    ReloadsIs(p, claims);
    ClaimsAre(p, q.binding, v.actor, v.issued.value, v.expires.value);
    PayloadOfReceipt(p, v.key, p.dump(claims));
    OwnClaimsMatch(p, v, q);
    CheckOfSigned(p, v, q, p.dump(claims), claims);
  }

  lemma AsciiTexts(b: Binding)
    ensures AsciiBinding(b) <==>
            forall t, i :: t in [b.consumer, b.project, b.route, b.purpose] && 0 <= i < |t| ==> t[i] as int < 128
  {
    var texts := [b.consumer, b.project, b.route, b.purpose];
    if forall t, i :: t in texts && 0 <= i < |t| ==> t[i] as int < 128 {
      assert texts[0] in texts && texts[1] in texts && texts[2] in texts && texts[3] in texts;
    }
  }

  lemma TimesAre(issued: int, expires: int, now: int, maxAge: int)
    ensures TimesHold(issued, expires, now, maxAge) <==>
            issued < expires && now < expires * 1_000_000 && expires - issued <= maxAge
  {}

  lemma ReloadsIs(p: Primitives, c: seq<Claim>)
    requires Reloads(p, c)
    ensures p.load(p.dump(c)) == Some(c) && p.dump(c) != []
  {}

  /** What is checked once the signature holds. */
  lemma CheckOfSigned(p: Primitives, v: Verifier, q: Request, payload: seq<Byte>, claims: seq<Claim>)
    requires SignedPayload(p, v.key, q.receipt) == Some(payload) && p.load(payload) == Some(claims)
    requires |claims| == 8 && claims[5].Whole? && claims[6].Whole? && q.now.Some?
    ensures Check(p, v, q).Some? <==>
            ClaimsMatch(p, v, q, claims) && TimesHold(claims[5].n, claims[6].n, q.now.value, q.maxAge)
  {
    hide SignedPayload, TimesHold;
  }

  /** A receipt whose times fall into one second, or whose bindings are not ASCII, verifies at no time and for no age. */
  lemma NeverVerifies(p: Primitives, v: Verifier, q: Request, now: Option<int>, maxAge: int)
    requires Lawful(p) && q.scope == SCOPE && v.issued.Some? && v.expires.Some?
    requires Reloads(p, Claims(p, q.binding, v.actor, v.issued.value, v.expires.value))
    requires Issue(p, v.key, q.binding, v.actor, v.issued, v.expires) == Receipt(q.receipt)
    requires q.actorReference == "actor_" + p.actorReference(q.binding.project, v.actor)
    requires Seconds(v.issued.value) == Seconds(v.expires.value) || !AsciiBinding(q.binding)
    ensures Check(p, v, q.(now := now, maxAge := maxAge)).None?
  {
    hide Lawful, Reloads, Claims, Issue, Seconds, AsciiBinding, SCOPE, SignedPayload;
    if now.Some? {
      AsciiTexts(q.binding);
      IssuedVerifiesIff(p, v, q.(now := now, maxAge := maxAge));
    }
  }

  // ---- such receipts are issued ------------------------------------------------------------------

  function AsciiBytes(s: string): seq<Byte> {
    seq(|s|, i requires 0 <= i < |s| => s[i] as int % 256)
  }

  /** Small primitives that meet the laws for one list of claims. */
  function Toy(claims: seq<Claim>): Primitives {
    Primitives(AsciiBytes, (k, m) => [1], s => s, (a, b) => "reference", n => "", c => [2], b => Some(claims))
  }

  const STRONG_KEY := "0123456789abcdef0123456789abcdef"

  /** What is asked of a receipt for its own bindings. */
  function OwnRequest(p: Primitives, v: Verifier, b: Binding, receipt: string): Request {
    Request(receipt, b, "actor_" + p.actorReference(b.project, v.actor), SCOPE, None, 0)
  }

  lemma ToyIsLawful(b: Binding, actor: string, issued: int, expires: int)
    ensures var c := Claims(Toy([]), b, actor, issued, expires);
            Lawful(Toy(c)) && Claims(Toy(c), b, actor, issued, expires) == c && Reloads(Toy(c), c)
  {
    assert IsAscii("reference");
  }

  lemma ToyIssues(c: seq<Claim>, b: Binding, actor: string, issued: int, expires: int)
    requires issued < expires
    ensures Issue(Toy(c), STRONG_KEY, b, actor, Some(issued), Some(expires)).Receipt?
  {
    hide Claims;
    assert |AsciiBytes(STRONG_KEY)| == |STRONG_KEY| == 32;
    ToyReceipt(c);
    hide Encode, ReceiptFor;
  }

  lemma ToyReceipt(c: seq<Claim>)
    ensures |ReceiptFor(Toy(c), STRONG_KEY, [2])| <= MAX_RECEIPT
  {
    EncodedLength(2);
    EncodedLength(1);
    hide Encode;
  }

  lemma EncodedLength(b: Byte)
    ensures |Encode([b])| == 2
  {}

  /** A receipt for two times within one second is issued, and never verifies. */
  lemma SameSecondIsIssuedInVain(b: Binding) returns (p: Primitives, v: Verifier, q: Request)
    ensures Lawful(p) && q.binding == b && q == OwnRequest(p, v, b, q.receipt)
    ensures Issue(p, v.key, b, v.actor, v.issued, v.expires) == Receipt(q.receipt)
    ensures forall now, maxAge :: Check(p, v, q.(now := now, maxAge := maxAge)).None?
  {
    p, v, q := IssuedToy(b, 0, 1);
    forall now, maxAge ensures Check(p, v, q.(now := now, maxAge := maxAge)).None? {
      NeverVerifies(p, v, q, now, maxAge);
    }
  }

  /** So is, for any times at all, a receipt whose bindings are not ASCII. */
  lemma NonAsciiIsIssuedInVain(b: Binding, issued: int, expires: int) returns (p: Primitives, v: Verifier, q: Request)
    requires !AsciiBinding(b) && issued < expires
    ensures Lawful(p) && q.binding == b && q == OwnRequest(p, v, b, q.receipt) && v.issued == Some(issued) && v.expires == Some(expires)
    ensures Issue(p, v.key, b, v.actor, v.issued, v.expires) == Receipt(q.receipt)
    ensures forall now, maxAge :: Check(p, v, q.(now := now, maxAge := maxAge)).None?
  {
    hide AsciiBinding;
    p, v, q := IssuedToy(b, issued, expires);
    forall now, maxAge ensures Check(p, v, q.(now := now, maxAge := maxAge)).None? {
      NeverVerifies(p, v, q, now, maxAge);
    }
  }

  lemma IssuedToy(b: Binding, issued: int, expires: int) returns (p: Primitives, v: Verifier, q: Request)
    requires issued < expires
    ensures Lawful(p) && v.issued == Some(issued) && v.expires == Some(expires) && q == OwnRequest(p, v, b, q.receipt)
    ensures Reloads(p, Claims(p, b, v.actor, issued, expires))
    ensures Issue(p, v.key, b, v.actor, v.issued, v.expires) == Receipt(q.receipt)
  {
    hide Lawful, Reloads, Claims, Issue, STRONG_KEY, Toy, SCOPE;
    var c := Claims(Toy([]), b, "", issued, expires);
    ToyIsLawful(b, "", issued, expires);
    ToyIssues(c, b, "", issued, expires);
    p, v := Toy(c), Verifier(STRONG_KEY, "", Some(issued), Some(expires));
    q := OwnRequest(p, v, b, Issue(p, v.key, b, v.actor, v.issued, v.expires).text);
  }

  const ACCENTED := Binding("caf\U{00E9}", "", "", "")

  lemma AccentedIsNotAscii()
    ensures !AsciiBinding(ACCENTED)
  {
    assert !IsAscii("caf\U{00E9}") by {
      assert "caf\U{00E9}"[3] as int >= 128;
    }
  }

  /** A project name with one accented letter is enough, however long the receipt is meant to last. */
  lemma AccentedIsIssuedInVain(issued: int, expires: int) returns (p: Primitives, v: Verifier, q: Request)
    requires issued < expires
    ensures Lawful(p) && q == OwnRequest(p, v, ACCENTED, q.receipt) && v.issued == Some(issued) && v.expires == Some(expires)
    ensures Issue(p, v.key, ACCENTED, v.actor, v.issued, v.expires) == Receipt(q.receipt)
    ensures forall now, maxAge :: Check(p, v, q.(now := now, maxAge := maxAge)).None?
  {
    AccentedIsNotAscii();
    hide *;
    p, v, q := NonAsciiIsIssuedInVain(ACCENTED, issued, expires);
  }

  /** The whole seconds of a time, truncated toward zero. */
  lemma SecondsIff(micros: int, s: int)
    ensures s == Seconds(micros) <==>
            if micros >= 0 then s * 1_000_000 <= micros < (s + 1) * 1_000_000 else (s - 1) * 1_000_000 < micros <= s * 1_000_000
  {}

  ghost predicate Reads(p: Primitives, c: Claim, text: string) {
    c == Text(text) || (c.Whole? && p.show(c.n) == text) || (c.Other? && c.repr == text)
  }

  /** The eight claims a request stands for: the version, the text of its bindings, the verifier's own times in whole
      seconds, and the reference of the verifier's actor. */
  ghost predicate Names(p: Primitives, v: Verifier, q: Request, c: seq<Claim>) {
    && |c| == 8 && (c[0] == Whole(1) || (c[0].Other? && c[0].isOne))
    && Reads(p, c[1], q.binding.consumer) && Reads(p, c[2], q.binding.project)
    && Reads(p, c[3], q.binding.route) && Reads(p, c[4], q.binding.purpose)
    && v.issued.Some? && v.expires.Some? && c[5] == Whole(Seconds(v.issued.value)) && c[6] == Whole(Seconds(v.expires.value))
    && Reads(p, c[7], p.actorReference(q.binding.project, v.actor))
  }

  /** An accepted request was signed under the verifier's key, names the verifier's own times and actor and the bindings
      asked for, is not over, and lasts no longer than allowed. */
  lemma AcceptedWasSigned(p: Primitives, v: Verifier, q: Request)
    requires Check(p, v, q).Some?
    ensures |q.receipt| <= 512 && v.issued.Some? && v.expires.Some? && q.now.Some?
    ensures exists payload, c ::
              && q.receipt == "nwc1" + "." + (Encode(payload) + "." +
                              Encode(p.mac(p.utf8(v.key), p.utf8("nws-coordinate-consent-v1\0") + p.utf8(Encode(payload)))))
              && p.load(payload) == Some(c) && Names(p, v, q, c)
    ensures q.actorReference == "actor_" + p.actorReference(q.binding.project, v.actor) && q.scope == "APPROXIMATE_LOCATION_QUERY"
    ensures var issued, expires := Seconds(v.issued.value), Seconds(v.expires.value);
            && issued < expires && q.now.value < expires * 1_000_000 && expires - issued <= q.maxAge
            && Check(p, v, q).value == Verified(p.digest(q.receipt), issued, q.binding, q.actorReference, q.scope)
  {
    SignedIsCanonical(p, v.key, q.receipt);
    SignedIsShort(p, v.key, q.receipt);
    var payload := SignedPayload(p, v.key, q.receipt).value;
    hide SignedPayload, Seconds, Encode, IsAscii;
    assert Names(p, v, q, p.load(payload).value);
  }

  /** Once the signature holds, a request is accepted exactly when the claims are those it stands for, in ASCII, and their
      times hold. */
  lemma AcceptedIff(p: Primitives, v: Verifier, q: Request, payload: seq<Byte>, c: seq<Claim>)
    requires SignedPayload(p, v.key, q.receipt) == Some(payload) && p.load(payload) == Some(c)
    ensures Check(p, v, q).Some? <==>
            && Names(p, v, q, c) && q.now.Some? && AsciiBinding(q.binding) && IsAscii(p.actorReference(q.binding.project, v.actor))
            && q.actorReference == "actor_" + p.actorReference(q.binding.project, v.actor) && q.scope == "APPROXIMATE_LOCATION_QUERY"
            && Seconds(v.issued.value) < Seconds(v.expires.value) && q.now.value < Seconds(v.expires.value) * 1_000_000
            && Seconds(v.expires.value) - Seconds(v.issued.value) <= q.maxAge
  {
    MatchIff(p, v, q, c);
    if Names(p, v, q, c) && q.now.Some? {
      TimesAre(c[5].n, c[6].n, q.now.value, q.maxAge);
    }
    hide SignedPayload, ClaimsMatch, TimesHold, Seconds, Reads, IsAscii, AsciiBinding;
  }

  lemma MatchIff(p: Primitives, v: Verifier, q: Request, c: seq<Claim>)
    ensures ClaimsMatch(p, v, q, c) <==>
            && Names(p, v, q, c) && q.now.Some? && AsciiBinding(q.binding) && IsAscii(p.actorReference(q.binding.project, v.actor))
            && q.actorReference == "actor_" + p.actorReference(q.binding.project, v.actor) && q.scope == "APPROXIMATE_LOCATION_QUERY"
  {
    PrefixText();
    if IsAscii(p.actorReference(q.binding.project, v.actor)) {
      AsciiAppend("actor_", p.actorReference(q.binding.project, v.actor));
    }
    hide IsAscii, Seconds;
  }

  lemma SignedIsShort(p: Primitives, key: string, receipt: string)
    requires SignedPayload(p, key, receipt).Some?
    ensures |receipt| <= 512
  {}

  /** A receipt serves only what it was issued for: under any other consumer, project, route or purpose, other times or
      another actor, it is not accepted. */
  lemma ForeignReceiptRejected(p: Primitives, v: Verifier, q: Request, b: Binding, actor: string, issued: int, expires: int)
    requires Lawful(p) && Reloads(p, Claims(p, b, actor, issued, expires))
    requires Issue(p, v.key, b, actor, Some(issued), Some(expires)) == Receipt(q.receipt)
    requires Check(p, v, q).Some?
    ensures q.binding.consumer == b.consumer && q.binding.project == b.project
    ensures q.binding.route == b.route && q.binding.purpose == b.purpose
    ensures v.issued.Some? && v.expires.Some? && Seconds(v.issued.value) == Seconds(issued) && Seconds(v.expires.value) == Seconds(expires)
    ensures p.actorReference(b.project, v.actor) == p.actorReference(b.project, actor)
  {
    IssuedForm(p, v.key, b, actor, Some(issued), Some(expires));
    var claims := Claims(p, b, actor, issued, expires);
    ReloadsIs(p, claims);
    ClaimsAre(p, b, actor, issued, expires);
    PayloadOfReceipt(p, v.key, p.dump(claims));
    hide Lawful, Reloads, Claims, Issue, Seconds, SignedPayload, ReceiptFor, IsAscii;
  }

  /** A receipt is issued exactly for two times with a timezone, the second one later, a key of at least 32 bytes, and a
      text of at most 512 characters; otherwise the first of these that fails is the error. */
  lemma IssuedIff(p: Primitives, key: string, b: Binding, actor: string, issued: Option<int>, expires: Option<int>)
    ensures var r := Issue(p, key, b, actor, issued, expires);
            && (r == Refused(NoTimezone) <==> issued.None? || expires.None?)
            && (issued.Some? && expires.Some? ==>
                  var text := ReceiptFor(p, key, p.dump(Claims(p, b, actor, issued.value, expires.value)));
                  && (r == Refused(NotAfterIssue) <==> issued.value >= expires.value)
                  && (r == Refused(WeakKey) <==> issued.value < expires.value && |p.utf8(key)| < 32)
                  && (r == Refused(TooLong) <==> issued.value < expires.value && |p.utf8(key)| >= 32 && |text| > 512)
                  && (r.Receipt? ==> r.text == text))
  {
    hide ReceiptFor, Claims;
  }

  // ---- single use -----------------------------------------------------------------------------------

  datatype Attempt = Attempt(verifier: Verifier, request: Request, fault: Fault)

  /** The used receipts after the attempts, in the order in which they reach the store. */
  function UsedAfter(p: Primitives, used: set<string>, attempts: seq<Attempt>): set<string> {
    if attempts == [] then used
    else
      var a := attempts[|attempts| - 1];
      Verification(p, a.verifier, a.request, UsedAfter(p, used, attempts[..|attempts| - 1]), a.fault).1
  }

  function OutcomeAt(p: Primitives, used: set<string>, attempts: seq<Attempt>, i: nat): Outcome
    requires i < |attempts|
  {
    Verification(p, attempts[i].verifier, attempts[i].request, UsedAfter(p, used, attempts[..i]), attempts[i].fault).0
  }

  lemma VerificationGrows(p: Primitives, v: Verifier, q: Request, used: set<string>, fault: Fault)
    ensures var r := Verification(p, v, q, used, fault);
            && used <= r.1
            && (r.0.Accepted? ==> p.digest(q.receipt) !in used && p.digest(q.receipt) in r.1)
  {
    CheckDigest(p, v, q);
    hide Check;
  }

  lemma CheckDigest(p: Primitives, v: Verifier, q: Request)
    ensures Check(p, v, q).Some? ==> Check(p, v, q).value.digest == p.digest(q.receipt)
  {
    hide ClaimsMatch, TimesHold, SignedPayload;
  }

  lemma {:induction false} UsedGrows(p: Primitives, used: set<string>, attempts: seq<Attempt>, i: nat)
    requires i <= |attempts|
    ensures UsedAfter(p, used, attempts[..i]) <= UsedAfter(p, used, attempts)
    decreases |attempts|
  {
    hide Verification;
    if i < |attempts| {
      var before, a := attempts[..|attempts| - 1], attempts[|attempts| - 1];
      UsedGrows(p, used, before, i);
      VerificationGrows(p, a.verifier, a.request, UsedAfter(p, used, before), a.fault);
      assert before[..i] == attempts[..i];
    } else {
      assert attempts[..i] == attempts;
    }
  }

  lemma AcceptedIsUsed(p: Primitives, used: set<string>, attempts: seq<Attempt>, i: nat)
    requires i < |attempts|
    ensures var d := p.digest(attempts[i].request.receipt);
            OutcomeAt(p, used, attempts, i).Accepted? ==>
              d !in UsedAfter(p, used, attempts[..i]) && d in UsedAfter(p, used, attempts[..i + 1])
  {
    hide Verification;
    assert attempts[..i + 1][..i] == attempts[..i];
    VerificationGrows(p, attempts[i].verifier, attempts[i].request, UsedAfter(p, used, attempts[..i]), attempts[i].fault);
  }

  /** Of any attempts with one receipt, by any verifiers, at any times and with any store failures, at most one succeeds. */
  lemma AtMostOneSucceeds(p: Primitives, used: set<string>, attempts: seq<Attempt>, i: nat, j: nat)
    requires i < j < |attempts| && attempts[i].request.receipt == attempts[j].request.receipt
    ensures !(OutcomeAt(p, used, attempts, i).Accepted? && OutcomeAt(p, used, attempts, j).Accepted?)
  {
    hide *;
    AcceptedIsUsed(p, used, attempts, i);
    AcceptedIsUsed(p, used, attempts, j);
    UsedGrows(p, used, attempts[..j], i + 1);
    assert attempts[..j][..i + 1] == attempts[..i + 1];
  }

  /** An attempt whose checks fail leaves every receipt as it was. */
  lemma FailedCheckConsumesNothing(p: Primitives, used: set<string>, attempts: seq<Attempt>)
    requires attempts != [] && Check(p, attempts[|attempts| - 1].verifier, attempts[|attempts| - 1].request).None?
    ensures UsedAfter(p, used, attempts) == UsedAfter(p, used, attempts[..|attempts| - 1])
  {
    hide Check;
  }
}
