/** Validation of source text as UTF-8 against sections 3 and 4 of RFC 3629, and the pointer
    walk that relies on it. */
module Utf8 {
  import opened Values
  import opened Bytecode

  type Text = seq<Byte>

  /** The masked byte, as the tests of the code compute it. */
  function And(b: Byte, mask: bv8): bv8 {
    (b as bv8) & mask
  }

  // ----- the reference: section 3 -----

  /** Unicode scalar values: code points up to 10FFFF without the surrogates. */
  predicate Scalar(n: nat) {
    n <= 0x10_FFFF && !(0xD800 <= n <= 0xDFFF)
  }

  /** The octets of a scalar value. */
  function Encode(n: nat): (r: Text)
    requires Scalar(n)
    ensures 1 <= |r| <= 4
  {
    if n <= 0x7F then [n]
    else if n <= 0x7FF then [0xC0 + n / 64, 0x80 + n % 64]
    else if n <= 0xFFFF then [0xE0 + n / 4096, 0x80 + n / 64 % 64, 0x80 + n % 64]
    else [0xF0 + n / 262144, 0x80 + n / 4096 % 64, 0x80 + n / 64 % 64, 0x80 + n % 64]
  }

  function EncodeAll(ns: seq<nat>): Text
    requires forall i :: 0 <= i < |ns| ==> Scalar(ns[i])
  {
    if ns == [] then [] else Encode(ns[0]) + EncodeAll(ns[1..])
  }

  // ----- the code -----

  datatype Leading = One | Two | Three | Four | Invalid

  datatype Check = Length(n: nat) | Bad(leading: Leading)

  predicate Continues(t: Text, i: nat)
    requires i < |t|
  {
    And(t[i], 0xC0) == 0x80
  }

  /** One code point, as the code tests it: the branches and their order are the code's. */
  function ValidateCodepoint(t: Text, p: nat): Check
    requires p < |t|
  {
    if t[p] < 0x80 then Length(1)
    else if And(t[p], 0xE0) == 0xC0 then
      if p + 1 >= |t| || !Continues(t, p + 1) || And(t[p], 0xFE) == 0xC0 then Bad(Two) else Length(2)
    else if And(t[p], 0xF0) == 0xE0 then
      if p + 2 >= |t| || !Continues(t, p + 1) || !Continues(t, p + 2) then Bad(Three)
      else if t[p] == 0xE0 && And(t[p + 1], 0xE0) == 0x80 then Bad(Three)
      else if t[p] == 0xED && And(t[p + 1], 0xE0) == 0xA0 then Bad(Three)
      else Length(3)
    else if And(t[p], 0xF8) == 0xF0 then
      if p + 3 >= |t| || !Continues(t, p + 1) || !Continues(t, p + 2) || !Continues(t, p + 3) then Bad(Four)
      else if t[p] == 0xF0 && And(t[p + 1], 0xF0) == 0x80 then Bad(Four)
      else if t[p] > 0xF4 || (t[p] == 0xF4 && t[p + 1] > 0x8F) then Bad(Four)
      else Length(4)
    else Bad(Invalid)
  }

  /** The masks select intervals of byte values. */
  lemma Masks(b: Byte)
    ensures And(b, 0xC0) == 0x80 <==> 0x80 <= b <= 0xBF
    ensures And(b, 0xE0) == 0xC0 <==> 0xC0 <= b <= 0xDF
    ensures And(b, 0xE0) == 0x80 <==> 0x80 <= b <= 0x9F
    ensures And(b, 0xE0) == 0xA0 <==> 0xA0 <= b <= 0xBF
    ensures And(b, 0xFE) == 0xC0 <==> 0xC0 <= b <= 0xC1
    ensures And(b, 0xF0) == 0xE0 <==> 0xE0 <= b <= 0xEF
    ensures And(b, 0xF0) == 0x80 <==> 0x80 <= b <= 0x8F
    ensures And(b, 0xF8) == 0xF0 <==> 0xF0 <= b <= 0xF7
  {
    hide And;
    MaskC0(b);
    MaskE0(b);
    MaskF0(b);
    MaskF8(b);
  }

  lemma MaskC0(b: Byte)
    ensures And(b, 0xC0) == 0x80 <==> 0x80 <= b <= 0xBF
    ensures And(b, 0xFE) == 0xC0 <==> 0xC0 <= b <= 0xC1
  {
  }

  lemma MaskE0(b: Byte)
    ensures And(b, 0xE0) == 0xC0 <==> 0xC0 <= b <= 0xDF
    ensures And(b, 0xE0) == 0x80 <==> 0x80 <= b <= 0x9F
    ensures And(b, 0xE0) == 0xA0 <==> 0xA0 <= b <= 0xBF
  {
  }

  lemma MaskF0(b: Byte)
    ensures And(b, 0xF0) == 0xE0 <==> 0xE0 <= b <= 0xEF
    ensures And(b, 0xF0) == 0x80 <==> 0x80 <= b <= 0x8F
  {
  }

  lemma MaskF8(b: Byte)
    ensures And(b, 0xF8) == 0xF0 <==> 0xF0 <= b <= 0xF7
  {
  }

  // ----- one code point -----

  /** `part` stands in the text at position p. */
  predicate Starts(t: Text, p: nat, part: Text) {
    p + |part| <= |t| && forall i :: 0 <= i < |part| ==> t[p + i] == part[i]
  }

  /** The numbers two, three and four octets carry. */
  function Join2(a: nat, b: nat): nat { a % 32 * 64 + b % 64 }

  function Join3(a: nat, b: nat, c: nat): nat { a % 16 * 4096 + b % 64 * 64 + c % 64 }

  function Join4(a: nat, b: nat, c: nat, d: nat): nat { a % 8 * 262144 + b % 64 * 4096 + c % 64 * 64 + d % 64 }

  predicate Tail(b: nat) { 0x80 <= b <= 0xBF }

  lemma Sextet(x: nat, d: nat)
    requires d < 64
    ensures (64 * x + d) / 64 == x && (64 * x + d) % 64 == d
  {
  }

  lemma Shifts(n: nat)
    ensures n / 4096 == n / 64 / 64 && n / 262144 == n / 64 / 64 / 64
  {
  }

  /** Splitting a number into octets and joining them again, with the ranges of the octets. */
  lemma Split2(n: nat)
    requires 0x80 <= n <= 0x7FF
    ensures var a, b := 0xC0 + n / 64, 0x80 + n % 64;
            0xC2 <= a <= 0xDF && Tail(b) && Join2(a, b) == n
  {
  }

  lemma Merge2(a: nat, b: nat)
    requires 0xC2 <= a <= 0xDF && Tail(b)
    ensures var n := Join2(a, b);
            0x80 <= n <= 0x7FF && 0xC0 + n / 64 == a && 0x80 + n % 64 == b
  {
  }

  predicate Lead3(a: nat, b: nat) {
    (a == 0xE0 && 0xA0 <= b <= 0xBF) || (0xE1 <= a <= 0xEC && Tail(b)) || (a == 0xED && 0x80 <= b <= 0x9F)
    || (0xEE <= a <= 0xEF && Tail(b))
  }

  lemma Split3(n: nat)
    requires 0x800 <= n <= 0xFFFF && Scalar(n)
    ensures var a, b, c := 0xE0 + n / 4096, 0x80 + n / 64 % 64, 0x80 + n % 64;
            Lead3(a, b) && Tail(c) && Join3(a, b, c) == n
  {
    var x, y := n / 64, n / 64 / 64;
    Shifts(n);
    assert n == 64 * x + n % 64 && x == 64 * y + x % 64;
    assert (0xE0 + y) % 16 == y && (0x80 + x % 64) % 64 == x % 64 && (0x80 + n % 64) % 64 == n % 64;
  }

  lemma Merge3(a: nat, b: nat, c: nat)
    requires Lead3(a, b) && Tail(c)
    ensures var n := Join3(a, b, c);
            0x800 <= n <= 0xFFFF && Scalar(n) && 0xE0 + n / 4096 == a && 0x80 + n / 64 % 64 == b && 0x80 + n % 64 == c
  {
    var x := 64 * (a - 0xE0) + (b - 0x80);
    var n := 64 * x + (c - 0x80);
    assert a % 16 == a - 0xE0 && b % 64 == b - 0x80 && c % 64 == c - 0x80;
    assert Join3(a, b, c) == n;
    Sextet(x, c - 0x80);
    Sextet(a - 0xE0, b - 0x80);
    Shifts(n);
  }

  predicate Lead4(a: nat, b: nat) {
    (a == 0xF0 && 0x90 <= b <= 0xBF) || (0xF1 <= a <= 0xF3 && Tail(b)) || (a == 0xF4 && 0x80 <= b <= 0x8F)
  }

  lemma Split4(n: nat)
    requires 0x1_0000 <= n <= 0x10_FFFF
    ensures var a, b, c, d := 0xF0 + n / 262144, 0x80 + n / 4096 % 64, 0x80 + n / 64 % 64, 0x80 + n % 64;
            Lead4(a, b) && Tail(c) && Tail(d) && Join4(a, b, c, d) == n
  {
    var x, y, z := n / 64, n / 64 / 64, n / 64 / 64 / 64;
    Shifts(n);
    assert n == 64 * x + n % 64 && x == 64 * y + x % 64 && y == 64 * z + y % 64;
    assert (0xF0 + z) % 8 == z && (0x80 + y % 64) % 64 == y % 64 && (0x80 + x % 64) % 64 == x % 64 && (0x80 + n % 64) % 64 == n % 64;
  }

  lemma Merge4(a: nat, b: nat, c: nat, d: nat)
    requires Lead4(a, b) && Tail(c) && Tail(d)
    ensures var n := Join4(a, b, c, d);
            && 0x1_0000 <= n <= 0x10_FFFF
            && 0xF0 + n / 262144 == a && 0x80 + n / 4096 % 64 == b && 0x80 + n / 64 % 64 == c && 0x80 + n % 64 == d
  {
    var y := 64 * (a - 0xF0) + (b - 0x80);
    var x := 64 * y + (c - 0x80);
    var n := 64 * x + (d - 0x80);
    assert a % 8 == a - 0xF0 && b % 64 == b - 0x80 && c % 64 == c - 0x80 && d % 64 == d - 0x80;
    assert Join4(a, b, c, d) == n;
    Sextet(x, d - 0x80);
    Sextet(y, c - 0x80);
    Sextet(a - 0xF0, b - 0x80);
    Shifts(n);
  }

  /** The number the octets of a code point carry. */
  function Value(t: Text, p: nat, n: nat): nat
    requires 1 <= n <= 4 && p + n <= |t|
  {
    if n == 1 then t[p]
    else if n == 2 then Join2(t[p], t[p + 1])
    else if n == 3 then Join3(t[p], t[p + 1], t[p + 2])
    else Join4(t[p], t[p + 1], t[p + 2], t[p + 3])
  }

  // ----- section 4: the syntax of byte sequences -----

  /** The table of well-formed octet sequences. */
  predicate Wellformed(t: Text, p: nat, n: nat) {
    && p + n <= |t|
    && match n
       case 1 => t[p] <= 0x7F
       case 2 => 0xC2 <= t[p] <= 0xDF && Tail(t[p + 1])
       case 3 => Lead3(t[p], t[p + 1]) && Tail(t[p + 2])
       case 4 => Lead4(t[p], t[p + 1]) && Tail(t[p + 2]) && Tail(t[p + 3])
       case _ => false
  }

  /** The test accepts exactly the sequences of the table. */
  lemma SyntaxExact(t: Text, p: nat, n: nat)
    requires p < |t|
    ensures ValidateCodepoint(t, p) == Length(n) <==> Wellformed(t, p, n)
  {
    hide And;
    Masks(t[p]);
    if p + 1 < |t| { Masks(t[p + 1]); }
    if p + 2 < |t| { Masks(t[p + 2]); }
    if p + 3 < |t| { Masks(t[p + 3]); }
  }

  /** What passes the test is the encoding of a scalar value. */
  lemma PassedIsEncoded(t: Text, p: nat)
    requires p < |t| && ValidateCodepoint(t, p).Length?
    ensures var n := ValidateCodepoint(t, p).n;
            && 1 <= n <= 4 && p + n <= |t|
            && Scalar(Value(t, p, n)) && |Encode(Value(t, p, n))| == n && Starts(t, p, Encode(Value(t, p, n)))
  {
    hide ValidateCodepoint, Join2, Join3, Join4, Lead3, Lead4;
    var n := ValidateCodepoint(t, p).n;
    SyntaxExact(t, p, n);
    if n == 2 {
      Merge2(t[p], t[p + 1]);
    } else if n == 3 {
      Merge3(t[p], t[p + 1], t[p + 2]);
    } else if n == 4 {
      Merge4(t[p], t[p + 1], t[p + 2], t[p + 3]);
    }
  }

  /** The encoding of a scalar value passes the test, with its length. */
  lemma EncodedPasses(t: Text, p: nat, n: nat)
    requires Scalar(n) && Starts(t, p, Encode(n))
    ensures p < |t| && ValidateCodepoint(t, p) == Length(|Encode(n)|)
    ensures Value(t, p, |Encode(n)|) == n
  {
    hide ValidateCodepoint, Join2, Join3, Join4, Lead3, Lead4, Tail;
    var e := Encode(n);
    assert t[p + 0] == e[0];
    SyntaxExact(t, p, |e|);
    if |e| == 2 {
      Split2(n);
      assert t[p + 1] == e[1];
    } else if |e| == 3 {
      Split3(n);
      assert t[p + 1] == e[1] && t[p + 2] == e[2];
    } else if |e| == 4 {
      Split4(n);
      assert t[p + 1] == e[1] && t[p + 2] == e[2] && t[p + 3] == e[3];
    }
  }

  /** A code point is accepted exactly when the octets of some scalar value stand there. */
  lemma CodepointExact(t: Text, p: nat)
    requires p < |t|
    ensures ValidateCodepoint(t, p).Length? <==> exists n: nat :: Scalar(n) && Starts(t, p, Encode(n))
  {
    if ValidateCodepoint(t, p).Length? {
      PassedIsEncoded(t, p);
    }
    if n: nat :| Scalar(n) && Starts(t, p, Encode(n)) {
      EncodedPasses(t, p, n);
    }
  }

  // ----- whole texts -----

  /** The position of the first code point that fails, or the end of the text. */
  function Scan(t: Text, p: nat): (r: nat)
    requires p <= |t|
    ensures p <= r <= |t|
    ensures r < |t| ==> ValidateCodepoint(t, r).Bad?
    decreases |t| - p
  {
    if p == |t| then p
    else
      match ValidateCodepoint(t, p)
      case Bad(_) => p
      case Length(n) => if 0 < n && p + n <= |t| then Scan(t, p + n) else p
  }

  predicate ValidText(t: Text) {
    Scan(t, 0) == |t|
  }

  datatype Outcome = Valid | Error(leading: Leading, location: nat)

  predicate Scalars(ns: seq<nat>) {
    forall i :: 0 <= i < |ns| ==> Scalar(ns[i])
  }

  /** Up to here the text is the encoding of scalar values, and none stands here. */
  ghost predicate FailsFirstAt(t: Text, p: nat) {
    && p < |t|
    && (exists ns :: Scalars(ns) && EncodeAll(ns) == t[..p])
    && forall n: nat :: Scalar(n) ==> !Starts(t, p, Encode(n))
  }

  /** The number of octets a lead octet announces; none is announced by 80 to BF and F8 to FF. */
  predicate Announces(lead: Byte, l: Leading) {
    match l
    case One => lead <= 0x7F
    case Two => 0xC0 <= lead <= 0xDF
    case Three => 0xE0 <= lead <= 0xEF
    case Four => 0xF0 <= lead <= 0xF7
    case Invalid => 0x80 <= lead <= 0xBF || 0xF8 <= lead
  }

  /** The loop as written: it accepts exactly the encodings of scalar values, and reports the
      first place where none stands, with what its lead octet announced; so never One. */
  method Validate(t: Text) returns (r: Outcome)
    ensures r.Valid? <==> exists ns :: Scalars(ns) && EncodeAll(ns) == t
    ensures r.Error? ==> FailsFirstAt(t, r.location) && Announces(t[r.location], r.leading) && !r.leading.One?
    ensures r.Valid? <==> ValidText(t)
    ensures r.Error? ==> r.location == Scan(t, 0)
  {
    hide Encode, EncodeAll, ValidateCodepoint, Value, Starts, Scalar, And;
    var p := 0;
    ghost var ns: seq<nat> := [];
    NothingEncoded(t);
    ValidationExact(t);
    while p < |t|
      invariant 0 <= p <= |t| && Scan(t, p) == Scan(t, 0)
      invariant Scalars(ns) && EncodeAll(ns) == t[..p]
    {
      var check := ValidateCodepoint(t, p);
      match check {
        case Bad(leading) =>
          CodepointExact(t, p);
          LeadRead(t, p);
          return Error(leading, p);
        case Length(n) =>
          PassedIsEncoded(t, p);
          OneMore(t, p, ns, Value(t, p, n));
          ns := ns + [Value(t, p, n)];
          p := p + n;
      }
    }
    assert t[..p] == t;
    return Valid;
  }

  lemma NothingEncoded(t: Text)
    ensures EncodeAll([]) == t[..0]
  {
  }

  /** The encoding of one more scalar value. */
  lemma OneMore(t: Text, p: nat, ns: seq<nat>, v: nat)
    requires p <= |t| && Scalars(ns) && Scalar(v) && EncodeAll(ns) == t[..p] && Starts(t, p, Encode(v))
    ensures Scalars(ns + [v]) && p + |Encode(v)| <= |t| && EncodeAll(ns + [v]) == t[..p + |Encode(v)|]
  {
    hide Encode, Scalar;
    EncodeAppend(ns, [v]);
    assert [v][1..] == [];
    assert t[p..p + |Encode(v)|] == Encode(v);
    assert t[..p + |Encode(v)|] == t[..p] + t[p..p + |Encode(v)|];
  }

  /** A code point that fails is reported by what its lead octet announces. */
  lemma LeadRead(t: Text, p: nat)
    requires p < |t| && ValidateCodepoint(t, p).Bad?
    ensures Announces(t[p], ValidateCodepoint(t, p).leading) && !ValidateCodepoint(t, p).leading.One?
  {
    hide And;
    Masks(t[p]);
  }

  /** Where a longer encoding stands at the same place as a shorter one, it goes on with a
      scalar value. */
  lemma {:induction false} GoesOn(t: Text, p: nat, a: seq<nat>, b: seq<nat>) returns (n: nat)
    requires Scalars(a) && Scalars(b) && Starts(t, p, EncodeAll(a)) && Starts(t, p, EncodeAll(b))
    requires |EncodeAll(a)| < |EncodeAll(b)|
    ensures Scalar(n) && Starts(t, p + |EncodeAll(a)|, Encode(n))
    decreases |a|
  {
    hide Encode, Scalar, ValidateCodepoint, Value;
    var first := Encode(b[0]);
    assert Starts(t, p, first) by { StartsBoth(t, p, first, EncodeAll(b[1..])); }
    if a == [] {
      n := b[0];
    } else {
      StartsBoth(t, p, Encode(a[0]), EncodeAll(a[1..]));
      StartsBoth(t, p, first, EncodeAll(b[1..]));
      EncodedPasses(t, p, a[0]);
      EncodedPasses(t, p, b[0]);
      n := GoesOn(t, p + |first|, a[1..], b[1..]);
    }
  }

  lemma StartsBoth(t: Text, p: nat, a: Text, b: Text)
    requires Starts(t, p, a + b)
    ensures Starts(t, p, a) && Starts(t, p + |a|, b)
  {
    assert forall i :: 0 <= i < |a| ==> (a + b)[i] == a[i];
    assert forall i :: 0 <= i < |b| ==> t[p + (|a| + i)] == (a + b)[|a| + i] == b[i];
  }

  /** The place reported is the only one of its kind. */
  lemma FailsOnce(t: Text, p: nat, q: nat)
    requires FailsFirstAt(t, p) && FailsFirstAt(t, q)
    ensures p == q
  {
    hide Encode, EncodeAll, Scalar;
    var a :| Scalars(a) && EncodeAll(a) == t[..p];
    var b :| Scalars(b) && EncodeAll(b) == t[..q];
    if p < q {
      var n := GoesOn(t, 0, a, b);
    } else if q < p {
      var n := GoesOn(t, 0, b, a);
    }
  }

  /** The scalar values of the text from p on, for as long as it is valid. */
  function Decode(t: Text, p: nat): (ns: seq<nat>)
    requires p <= |t| && Scan(t, p) == |t|
    ensures Scalars(ns)
    decreases |t| - p
  {
    if p == |t| then []
    else
      PassedIsEncoded(t, p);
      var n := ValidateCodepoint(t, p).n;
      [Value(t, p, n)] + Decode(t, p + n)
  }

  /** A valid text is the encoding of its scalar values. */
  lemma {:induction false} EncodeDecode(t: Text, p: nat)
    requires p <= |t| && Scan(t, p) == |t|
    ensures EncodeAll(Decode(t, p)) == t[p..]
    decreases |t| - p
  {
    hide Encode, ValidateCodepoint, Value;
    if p < |t| {
      PassedIsEncoded(t, p);
      var n := ValidateCodepoint(t, p).n;
      EncodeDecode(t, p + n);
      var v, rest := Value(t, p, n), Decode(t, p + n);
      assert Decode(t, p) == [v] + rest && ([v] + rest)[1..] == rest;
      assert t[p..] == t[p..p + n] + t[p + n..] && t[p..p + n] == Encode(v);
    }
  }

  /** The encoding of scalar values is valid and is read back. */
  lemma {:induction false} DecodeEncode(t: Text, p: nat, ns: seq<nat>)
    requires Scalars(ns) && p <= |t| && t[p..] == EncodeAll(ns)
    ensures Scan(t, p) == |t| && Decode(t, p) == ns
    decreases |ns|
  {
    hide Encode, ValidateCodepoint, Wellformed, Value, Join2, Join4, Join3, Scalar;
    if ns != [] {
      var e, rest := Encode(ns[0]), EncodeAll(ns[1..]);
      assert t[p..] == e + rest;
      assert Starts(t, p, e) by {
        forall i | 0 <= i < |e|
          ensures t[p + i] == e[i]
        {
          assert t[p..][i] == (e + rest)[i];
        }
      }
      EncodedPasses(t, p, ns[0]);
      assert t[p + |e|..] == rest;
      DecodeEncode(t, p + |e|, ns[1..]);
      assert ns == [ns[0]] + ns[1..];
    }
  }

  /** Validation is exact: a text is accepted exactly when it is the encoding of a sequence of
      Unicode scalar values. */
  lemma ValidationExact(t: Text)
    ensures ValidText(t) <==> exists ns :: Scalars(ns) && EncodeAll(ns) == t
  {
    if ValidText(t) {
      EncodeDecode(t, 0);
      assert t[0..] == t;
      assert Scalars(Decode(t, 0)) && EncodeAll(Decode(t, 0)) == t;
    }
    if ns :| Scalars(ns) && EncodeAll(ns) == t {
      assert t[0..] == t;
      DecodeEncode(t, 0, ns);
    }
  }

  /** And that sequence is unique. */
  lemma EncodingUnique(a: seq<nat>, b: seq<nat>)
    requires Scalars(a) && Scalars(b) && EncodeAll(a) == EncodeAll(b)
    ensures a == b
  {
    var t := EncodeAll(a);
    assert t[0..] == t;
    DecodeEncode(t, 0, a);
    DecodeEncode(t, 0, b);
  }

  // ----- the walk -----

  /** One step over NUL-terminated text; None is the null pointer, which a step from the
      terminator, and from null, gives. */
  function Advance(t: Text, p: Option<nat>): Option<nat>
    requires p.Some? ==> p.value < |t|
  {
    if p.None? || t[p.value] == 0 then None
    else if t[p.value] < 0x80 then Some(p.value + 1)
    else if And(t[p.value], 0xE0) == 0xC0 then Some(p.value + 2)
    else if And(t[p.value], 0xF0) == 0xE0 then Some(p.value + 3)
    else if And(t[p.value], 0xF8) == 0xF0 then Some(p.value + 4)
    else p
  }

  /** On an accepted code point other than NUL a step goes to the next one. */
  lemma AdvanceExact(t: Text, p: nat)
    requires p < |t| && ValidateCodepoint(t, p).Length? && t[p] != 0
    ensures Advance(t, Some(p)) == Some(p + ValidateCodepoint(t, p).n)
  {
    hide And;
    Masks(t[p]);
  }

  /** Positions in the encoding of a sequence: the end of its first k code points. */
  function Boundary(ns: seq<nat>, k: nat): nat
    requires Scalars(ns) && k <= |ns|
  {
    |EncodeAll(ns[..k])|
  }

  lemma {:induction false} EncodeAppend(a: seq<nat>, b: seq<nat>)
    requires Scalars(a) && Scalars(b)
    ensures Scalars(a + b) && EncodeAll(a + b) == EncodeAll(a) + EncodeAll(b)
    decreases |a|
  {
    hide Encode, Scalar;
    if a == [] {
      assert a + b == b;
    } else {
      assert (a + b)[1..] == a[1..] + b && (a + b)[0] == a[0];
      EncodeAppend(a[1..], b);
      assert Encode(a[0]) + EncodeAll(a[1..]) + EncodeAll(b) == Encode(a[0]) + (EncodeAll(a[1..]) + EncodeAll(b));
    }
  }

  /** The k-th code point stands between two neighbouring boundaries. */
  lemma AtBoundary(ns: seq<nat>, k: nat)
    requires Scalars(ns) && k < |ns|
    ensures Boundary(ns, k + 1) == Boundary(ns, k) + |Encode(ns[k])| <= |EncodeAll(ns)|
    ensures Starts(EncodeAll(ns) + [0], Boundary(ns, k), Encode(ns[k]))
  {
    hide Encode, Starts;
    var a, b := ns[..k], ns[k + 1..];
    EncodeAppend(a, [ns[k]]);
    EncodeAppend(a + [ns[k]], b);
    assert ns[..k + 1] == a + [ns[k]] && ns == a + [ns[k]] + b;
    assert [ns[k]][1..] == [];
    assert EncodeAll([ns[k]]) == Encode(ns[k]) + [] == Encode(ns[k]);
    StartsInside(EncodeAll(a), Encode(ns[k]), EncodeAll(b), [0]);
  }

  lemma StartsInside(a: Text, e: Text, b: Text, c: Text)
    ensures Starts(a + e + b + c, |a|, e)
  {
  }

  /** Steps over the NUL-terminated encoding of NUL-free text visit exactly its code point
      boundaries: k steps lead to the k-th one, and one more from the end to null. */
  method Peek(t: Text, ghost ns: seq<nat>, n: nat) returns (temp: Option<nat>)
    requires Scalars(ns) && 0 !in ns && t == EncodeAll(ns) + [0]
    ensures n <= |ns| ==> temp == Some(Boundary(ns, n))
    ensures n > |ns| ==> temp.None?
  {
    hide Encode, EncodeAll, Advance, Boundary;
    NoBoundary(ns);
    StepFromEnd(t, ns);
    temp := Some(0);
    for i := 0 to n
      invariant i <= |ns| ==> temp == Some(Boundary(ns, i))
      invariant i > |ns| ==> temp.None?
    {
      if i <= |ns| {
        StepFrom(t, ns, i);
      }
      temp := Advance(t, temp);
    }
  }

  lemma NoBoundary(ns: seq<nat>)
    requires Scalars(ns)
    ensures Boundary(ns, 0) == 0
  {
  }

  /** One step from the k-th boundary. */
  lemma StepFrom(t: Text, ns: seq<nat>, k: nat)
    requires Scalars(ns) && 0 !in ns && t == EncodeAll(ns) + [0] && k <= |ns|
    ensures Boundary(ns, k) < |t|
    ensures Advance(t, Some(Boundary(ns, k))) == if k < |ns| then Some(Boundary(ns, k + 1)) else None
  {
    hide Boundary, Advance, EncodeAll, Scalars;
    if k < |ns| {
      assert ns[k] in ns;
      StepInside(t, ns, k, Boundary(ns, k), Boundary(ns, k + 1));
    } else {
      StepFromEnd(t, ns);
    }
  }

  lemma StepInside(t: Text, ns: seq<nat>, k: nat, p: nat, q: nat)
    requires Scalars(ns) && t == EncodeAll(ns) + [0] && k < |ns| && ns[k] != 0
    requires p == Boundary(ns, k) && q == Boundary(ns, k + 1)
    ensures p < |t| && Advance(t, Some(p)) == Some(q)
  {
    hide Encode, EncodeAll, Starts, ValidateCodepoint, Value, Advance, And, Boundary;
    AtBoundary(ns, k);
    EncodedPasses(t, p, ns[k]);
    FirstOctet(t, p, ns[k]);
    AdvanceExact(t, p);
  }

  lemma StepFromEnd(t: Text, ns: seq<nat>)
    requires Scalars(ns) && t == EncodeAll(ns) + [0]
    ensures Boundary(ns, |ns|) < |t| && Advance(t, Some(Boundary(ns, |ns|))) == None && Advance(t, None) == None
  {
    assert ns[..|ns|] == ns;
  }

  /** Only NUL encodes to a zero octet in front. */
  lemma FirstOctet(t: Text, p: nat, n: nat)
    requires Scalar(n) && n != 0 && Starts(t, p, Encode(n))
    ensures p < |t| && t[p] != 0
  {
    assert t[p + 0] == Encode(n)[0];
  }
}
