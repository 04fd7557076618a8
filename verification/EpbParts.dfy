/** Appending the parts of a field one after the other, each only if it fits: what the
    setters of apps/sink/epb.c do, because their error tests never hold. */
module EpbParts {
  import opened Ints
  import opened EpbWire

  /** The pieces a setter writes, one call each. */
  function Parts(f: Field): seq<seq<uint8>> {
    match f
    case VarintField(tag, v) => [TagBytes(tag), VarintBytes(v)]
    case Fixed32Field(tag, v) => [TagBytes(tag), Fixed32Bytes(v)]
    case BytesField(tag, d) => [TagBytes(tag), VarintBytes(|d|), d]
  }

  function Concat(parts: seq<seq<uint8>>): seq<uint8> {
    if parts == [] then [] else parts[0] + Concat(parts[1..])
  }

  function AppendPart(contents: seq<uint8>, cap: nat, part: seq<uint8>): seq<uint8> {
    if cap - |contents| >= |part| then contents + part else contents
  }

  function AppendParts(contents: seq<uint8>, cap: nat, parts: seq<seq<uint8>>): (s: seq<uint8>)
    decreases parts
  {
    if parts == [] then contents else AppendParts(AppendPart(contents, cap, parts[0]), cap, parts[1..])
  }

  function PartReturn(contents: seq<uint8>, cap: nat, part: seq<uint8>): uint16 {
    if cap - |contents| >= |part| then |part| % TWO_16 else FAILURE
  }

  /** The sum of the parts' return values, in a uint16. */
  function PartsReturn(contents: seq<uint8>, cap: nat, parts: seq<seq<uint8>>): uint16
    decreases parts
  {
    if parts == [] then 0
    else (PartReturn(contents, cap, parts[0])
          + PartsReturn(AppendPart(contents, cap, parts[0]), cap, parts[1..])) % TWO_16
  }

  lemma {:induction false} FirstPart(contents: seq<uint8>, cap: nat, a: seq<uint8>, rest: seq<seq<uint8>>)
    ensures AppendParts(contents, cap, [a] + rest) == AppendParts(AppendPart(contents, cap, a), cap, rest)
    ensures PartsReturn(contents, cap, [a] + rest)
         == (PartReturn(contents, cap, a) + PartsReturn(AppendPart(contents, cap, a), cap, rest)) % TWO_16
  {
    assert ([a] + rest)[1..] == rest;
  }

  lemma {:induction false} NoParts(contents: seq<uint8>, cap: nat)
    ensures AppendParts(contents, cap, []) == contents
    ensures PartsReturn(contents, cap, []) == 0
  {
  }

  lemma {:induction false} TwoParts(contents: seq<uint8>, cap: nat, a: seq<uint8>, b: seq<uint8>)
    ensures AppendParts(contents, cap, [a, b]) == AppendPart(AppendPart(contents, cap, a), cap, b)
    ensures PartsReturn(contents, cap, [a, b])
         == (PartReturn(contents, cap, a) + PartReturn(AppendPart(contents, cap, a), cap, b)) % TWO_16
  {
    hide AppendParts, PartsReturn, AppendPart, PartReturn;
    var c1 := AppendPart(contents, cap, a);
    assert [a] + [b] == [a, b] && [b] + [] == [b];
    FirstPart(contents, cap, a, [b]);
    FirstPart(c1, cap, b, []);
    NoParts(AppendPart(c1, cap, b), cap);
  }

  lemma {:induction false} ThreeParts(contents: seq<uint8>, cap: nat, a: seq<uint8>, b: seq<uint8>, c: seq<uint8>)
    ensures AppendParts(contents, cap, [a, b, c])
         == AppendPart(AppendPart(AppendPart(contents, cap, a), cap, b), cap, c)
    ensures PartsReturn(contents, cap, [a, b, c])
         == ((PartReturn(contents, cap, a) + PartReturn(AppendPart(contents, cap, a), cap, b)) % TWO_16
             + PartReturn(AppendPart(AppendPart(contents, cap, a), cap, b), cap, c)) % TWO_16
  {
    hide AppendParts, PartsReturn, AppendPart, PartReturn;
    assert [a] + [b, c] == [a, b, c];
    FirstPart(contents, cap, a, [b, c]);
    TwoParts(AppendPart(contents, cap, a), cap, b, c);
  }

  lemma {:induction false} PartsAreEncoding(f: Field)
    ensures Concat(Parts(f)) == Encode(f)
  {
    var parts: seq<seq<uint8>> := Parts(f);
    assert parts[1..][1..] == parts[2..];
    var last: seq<seq<uint8>> := parts[2..];
    if |parts| == 3 { assert |last[1..]| == 0; }
    assert Concat(parts) == parts[0] + (parts[1] + Concat(parts[2..]));
    match f
    case VarintField(_, _) =>
    case Fixed32Field(_, _) =>
    case BytesField(_, d) => assert Concat(parts[2..]) == d;
  }

  /** What fits is never more than the whole, and nothing is lost from the front. */
  lemma {:induction false} AppendPartsBounds(contents: seq<uint8>, cap: nat, parts: seq<seq<uint8>>)
    ensures contents <= AppendParts(contents, cap, parts)
    ensures |AppendParts(contents, cap, parts)| <= |contents| + |Concat(parts)|
    ensures |contents| <= cap ==> |AppendParts(contents, cap, parts)| <= cap
    decreases parts
  {
    if parts != [] {
      AppendPartsBounds(AppendPart(contents, cap, parts[0]), cap, parts[1..]);
    }
  }

  lemma {:induction false} SumModulo(a: int, b: int)
    ensures (a % TWO_16 + b % TWO_16) % TWO_16 == (a + b) % TWO_16
  {
  }

  /** With room for the whole, the whole is appended and its length returned. */
  lemma {:induction false} EnoughRoom(contents: seq<uint8>, cap: nat, parts: seq<seq<uint8>>)
    requires cap - |contents| >= |Concat(parts)|
    ensures AppendParts(contents, cap, parts) == contents + Concat(parts)
    ensures PartsReturn(contents, cap, parts) == |Concat(parts)| % TWO_16
    decreases parts
  {
    hide AppendParts, PartsReturn;
    if parts == [] {
      NoParts(contents, cap);
      assert contents + Concat(parts) == contents;
    } else {
      var first, rest := parts[0], parts[1..];
      assert parts == [first] + rest;
      FirstPart(contents, cap, first, rest);
      EnoughRoom(contents + first, cap, rest);
      SumModulo(|first|, |Concat(rest)|);
      assert contents + Concat(parts) == contents + first + Concat(rest);
    }
  }

  /** The whole is appended if and only if there is room for it: a caller that compares sizes
      does see the truncation that the return values hide. */
  lemma {:induction false} WholeIffRoom(contents: seq<uint8>, cap: nat, parts: seq<seq<uint8>>)
    requires |contents| <= cap
    ensures |AppendParts(contents, cap, parts)| == |contents| + |Concat(parts)|
       <==> cap - |contents| >= |Concat(parts)|
  {
    if cap - |contents| >= |Concat(parts)| { EnoughRoom(contents, cap, parts); }
    AppendPartsBounds(contents, cap, parts);
  }

  lemma {:induction false} NothingIffNoPartFits(contents: seq<uint8>, cap: nat, parts: seq<seq<uint8>>)
    requires |contents| <= cap
    ensures AppendParts(contents, cap, parts) == contents
       <==> forall i :: 0 <= i < |parts| ==> parts[i] == [] || |parts[i]| > cap - |contents|
    decreases parts
  {
    if parts != [] {
      var next := AppendPart(contents, cap, parts[0]);
      if next == contents {
        NothingIffNoPartFits(contents, cap, parts[1..]);
        assert forall i :: 0 <= i < |parts| - 1 ==> parts[1..][i] == parts[i + 1];
        assert parts == [parts[0]] + parts[1..];
      } else {
        AppendPartsBounds(next, cap, parts[1..]);
      }
    }
  }

  /** A setter is all-or-nothing only if the room takes the whole field or none of its
      non-empty parts. Between the two it leaves a torn field, and goes on. */
  lemma {:induction false} SetterIsAtomicIff(contents: seq<uint8>, cap: nat, f: Field)
    requires |contents| <= cap
    ensures AppendParts(contents, cap, Parts(f)) in [contents, contents + Encode(f)]
       <==> || cap - |contents| >= |Encode(f)|
            || forall i :: 0 <= i < |Parts(f)| ==> Parts(f)[i] == [] || |Parts(f)[i]| > cap - |contents|
  {
    PartsAreEncoding(f);
    var parts := Parts(f);
    WholeIffRoom(contents, cap, parts);
    NothingIffNoPartFits(contents, cap, parts);
    if cap - |contents| >= |Encode(f)| { EnoughRoom(contents, cap, parts); }
  }

  /** One byte of room and a two-byte tag: the tag is dropped, the value is written without
      it, and the setter returns 0. */
  lemma {:induction false} TornField()
    ensures AppendParts([], 1, Parts(VarintField(0x8001, 7))) == [7]
    ensures PartsReturn([], 1, Parts(VarintField(0x8001, 7))) == 0
  {
    TwoParts([], 1, TagBytes(0x8001), VarintBytes(7));
  }

  /** How many of the pieces find no room, each in turn. */
  function Lost(contents: seq<uint8>, cap: nat, parts: seq<seq<uint8>>): nat
    decreases parts
  {
    if parts == [] then 0
    else if |contents| + |parts[0]| <= cap then Lost(contents + parts[0], cap, parts[1..])
    else 1 + Lost(contents, cap, parts[1..])
  }

  /** What a setter returns is the number of bytes it wrote less the number of its pieces that were
      lost, modulo 2^16: each lost piece adds 0xFFFF. */
  lemma {:induction false} ReturnCountsLost(contents: seq<uint8>, cap: nat, parts: seq<seq<uint8>>)
    requires |contents| <= cap && forall i :: 0 <= i < |parts| ==> |parts[i]| < TWO_16
    ensures PartsReturn(contents, cap, parts)
         == (|AppendParts(contents, cap, parts)| - |contents| - Lost(contents, cap, parts)) % TWO_16
    decreases parts
  {
    if parts != [] {
      var next := AppendPart(contents, cap, parts[0]);
      ReturnCountsLost(next, cap, parts[1..]);
      var here := if |contents| + |parts[0]| <= cap then |parts[0]| else -1;
      var rest := |AppendParts(next, cap, parts[1..])| - |next| - Lost(next, cap, parts[1..]);
      SumModulo(here, rest);
    }
  }
}
