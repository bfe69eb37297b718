/** The checksum of a key, computed a byte at a time from a table, against its definition a bit at a time. */
module Crc {

  // The table, sixteen entries to a row.

  const ROW0: seq<bv64> := [
    0x0000000000000000, 0x7ad870c830358979, 0xf5b0e190606b12f2, 0x8f689158505e9b8b,
    0xc038e5739841b68f, 0xbae095bba8743ff6, 0x358804e3f82aa47d, 0x4f50742bc81f2d04,
    0xab28ecb46814fe75, 0xd1f09c7c5821770c, 0x5e980d24087fec87, 0x24407dec384a65fe,
    0x6b1009c7f05548fa, 0x11c8790fc060c183, 0x9ea0e857903e5a08, 0xe478989fa00bd371
  ]

  const ROW1: seq<bv64> := [
    0x7d08ff3b88be6f81, 0x07d08ff3b88be6f8, 0x88b81eabe8d57d73, 0xf2606e63d8e0f40a,
    0xbd301a4810ffd90e, 0xc7e86a8020ca5077, 0x4880fbd87094cbfc, 0x32588b1040a14285,
    0xd620138fe0aa91f4, 0xacf86347d09f188d, 0x2390f21f80c18306, 0x594882d7b0f40a7f,
    0x1618f6fc78eb277b, 0x6cc0863448deae02, 0xe3a8176c18803589, 0x997067a428b5bcf0
  ]

  const ROW2: seq<bv64> := [
    0xfa11fe77117cdf02, 0x80c98ebf2149567b, 0x0fa11fe77117cdf0, 0x75796f2f41224489,
    0x3a291b04893d698d, 0x40f16bccb908e0f4, 0xcf99fa94e9567b7f, 0xb5418a5cd963f206,
    0x513912c379682177, 0x2be1620b495da80e, 0xa489f35319033385, 0xde51839b2936bafc,
    0x9101f7b0e12997f8, 0xebd98778d11c1e81, 0x64b116208142850a, 0x1e6966e8b1770c73
  ]

  const ROW3: seq<bv64> := [
    0x8719014c99c2b083, 0xfdc17184a9f739fa, 0x72a9e0dcf9a9a271, 0x08719014c99c2b08,
    0x4721e43f0183060c, 0x3df994f731b68f75, 0xb29105af61e814fe, 0xc849756751dd9d87,
    0x2c31edf8f1d64ef6, 0x56e99d30c1e3c78f, 0xd9810c6891bd5c04, 0xa3597ca0a188d57d,
    0xec09088b6997f879, 0x96d1784359a27100, 0x19b9e91b09fcea8b, 0x636199d339c963f2
  ]

  const ROW4: seq<bv64> := [
    0xdf7adabd7a6e2d6f, 0xa5a2aa754a5ba416, 0x2aca3b2d1a053f9d, 0x50124be52a30b6e4,
    0x1f423fcee22f9be0, 0x659a4f06d21a1299, 0xeaf2de5e82448912, 0x902aae96b271006b,
    0x74523609127ad31a, 0x0e8a46c1224f5a63, 0x81e2d7997211c1e8, 0xfb3aa75142244891,
    0xb46ad37a8a3b6595, 0xceb2a3b2ba0eecec, 0x41da32eaea507767, 0x3b024222da65fe1e
  ]

  const ROW5: seq<bv64> := [
    0xa2722586f2d042ee, 0xd8aa554ec2e5cb97, 0x57c2c41692bb501c, 0x2d1ab4dea28ed965,
    0x624ac0f56a91f461, 0x1892b03d5aa47d18, 0x97fa21650afae693, 0xed2251ad3acf6fea,
    0x095ac9329ac4bc9b, 0x7382b9faaaf135e2, 0xfcea28a2faafae69, 0x8632586aca9a2710,
    0xc9622c4102850a14, 0xb3ba5c8932b0836d, 0x3cd2cdd162ee18e6, 0x460abd1952db919f
  ]

  const ROW6: seq<bv64> := [
    0x256b24ca6b12f26d, 0x5fb354025b277b14, 0xd0dbc55a0b79e09f, 0xaa03b5923b4c69e6,
    0xe553c1b9f35344e2, 0x9f8bb171c366cd9b, 0x10e3202993385610, 0x6a3b50e1a30ddf69,
    0x8e43c87e03060c18, 0xf49bb8b633338561, 0x7bf329ee636d1eea, 0x012b592653589793,
    0x4e7b2d0d9b47ba97, 0x34a35dc5ab7233ee, 0xbbcbcc9dfb2ca865, 0xc113bc55cb19211c
  ]

  const ROW7: seq<bv64> := [
    0x5863dbf1e3ac9dec, 0x22bbab39d3991495, 0xadd33a6183c78f1e, 0xd70b4aa9b3f20667,
    0x985b3e827bed2b63, 0xe2834e4a4bd8a21a, 0x6debdf121b863991, 0x1733afda2bb3b0e8,
    0xf34b37458bb86399, 0x8993478dbb8deae0, 0x06fbd6d5ebd3716b, 0x7c23a61ddbe6f812,
    0x3373d23613f9d516, 0x49aba2fe23cc5c6f, 0xc6c333a67392c7e4, 0xbc1b436e43a74e9d
  ]

  const ROW8: seq<bv64> := [
    0x95ac9329ac4bc9b5, 0xef74e3e19c7e40cc, 0x601c72b9cc20db47, 0x1ac40271fc15523e,
    0x5594765a340a7f3a, 0x2f4c0692043ff643, 0xa02497ca54616dc8, 0xdafce7026454e4b1,
    0x3e847f9dc45f37c0, 0x445c0f55f46abeb9, 0xcb349e0da4342532, 0xb1eceec59401ac4b,
    0xfebc9aee5c1e814f, 0x8464ea266c2b0836, 0x0b0c7b7e3c7593bd, 0x71d40bb60c401ac4
  ]

  const ROW9: seq<bv64> := [
    0xe8a46c1224f5a634, 0x927c1cda14c02f4d, 0x1d148d82449eb4c6, 0x67ccfd4a74ab3dbf,
    0x289c8961bcb410bb, 0x5244f9a98c8199c2, 0xdd2c68f1dcdf0249, 0xa7f41839ecea8b30,
    0x438c80a64ce15841, 0x3954f06e7cd4d138, 0xb63c61362c8a4ab3, 0xcce411fe1cbfc3ca,
    0x83b465d5d4a0eece, 0xf96c151de49567b7, 0x76048445b4cbfc3c, 0x0cdcf48d84fe7545
  ]

  const ROW10: seq<bv64> := [
    0x6fbd6d5ebd3716b7, 0x15651d968d029fce, 0x9a0d8ccedd5c0445, 0xe0d5fc06ed698d3c,
    0xaf85882d2576a038, 0xd55df8e515432941, 0x5a3569bd451db2ca, 0x20ed197575283bb3,
    0xc49581ead523e8c2, 0xbe4df122e51661bb, 0x3125607ab548fa30, 0x4bfd10b2857d7349,
    0x04ad64994d625e4d, 0x7e7514517d57d734, 0xf11d85092d094cbf, 0x8bc5f5c11d3cc5c6
  ]

  const ROW11: seq<bv64> := [
    0x12b5926535897936, 0x686de2ad05bcf04f, 0xe70573f555e26bc4, 0x9ddd033d65d7e2bd,
    0xd28d7716adc8cfb9, 0xa85507de9dfd46c0, 0x273d9686cda3dd4b, 0x5de5e64efd965432,
    0xb99d7ed15d9d8743, 0xc3450e196da80e3a, 0x4c2d9f413df695b1, 0x36f5ef890dc31cc8,
    0x79a59ba2c5dc31cc, 0x037deb6af5e9b8b5, 0x8c157a32a5b7233e, 0xf6cd0afa9582aa47
  ]

  const ROW12: seq<bv64> := [
    0x4ad64994d625e4da, 0x300e395ce6106da3, 0xbf66a804b64ef628, 0xc5bed8cc867b7f51,
    0x8aeeace74e645255, 0xf036dc2f7e51db2c, 0x7f5e4d772e0f40a7, 0x05863dbf1e3ac9de,
    0xe1fea520be311aaf, 0x9b26d5e88e0493d6, 0x144e44b0de5a085d, 0x6e963478ee6f8124,
    0x21c640532670ac20, 0x5b1e309b16452559, 0xd476a1c3461bbed2, 0xaeaed10b762e37ab
  ]

  const ROW13: seq<bv64> := [
    0x37deb6af5e9b8b5b, 0x4d06c6676eae0222, 0xc26e573f3ef099a9, 0xb8b627f70ec510d0,
    0xf7e653dcc6da3dd4, 0x8d3e2314f6efb4ad, 0x0256b24ca6b12f26, 0x788ec2849684a65f,
    0x9cf65a1b368f752e, 0xe62e2ad306bafc57, 0x6946bb8b56e467dc, 0x139ecb4366d1eea5,
    0x5ccebf68aecec3a1, 0x2616cfa09efb4ad8, 0xa97e5ef8cea5d153, 0xd3a62e30fe90582a
  ]

  const ROW14: seq<bv64> := [
    0xb0c7b7e3c7593bd8, 0xca1fc72bf76cb2a1, 0x45775673a732292a, 0x3faf26bb9707a053,
    0x70ff52905f188d57, 0x0a2722586f2d042e, 0x854fb3003f739fa5, 0xff97c3c80f4616dc,
    0x1bef5b57af4dc5ad, 0x61372b9f9f784cd4, 0xee5fbac7cf26d75f, 0x9487ca0fff135e26,
    0xdbd7be24370c7322, 0xa10fceec0739fa5b, 0x2e675fb4576761d0, 0x54bf2f7c6752e8a9
  ]

  const ROW15: seq<bv64> := [
    0xcdcf48d84fe75459, 0xb71738107fd2dd20, 0x387fa9482f8c46ab, 0x42a7d9801fb9cfd2,
    0x0df7adabd7a6e2d6, 0x772fdd63e7936baf, 0xf8474c3bb7cdf024, 0x829f3cf387f8795d,
    0x66e7a46c27f3aa2c, 0x1c3fd4a417c62355, 0x935745fc4798b8de, 0xe98f353477ad31a7,
    0xa6df411fbfb21ca3, 0xdc0731d78f8795da, 0x536fa08fdfd90e51, 0x29b7d047efec8728
  ]

  function Row(h: bv64): (row: seq<bv64>)
    ensures |row| == 16
  {
    if h == 0 then ROW0
    else if h == 1 then ROW1
    else if h == 2 then ROW2
    else if h == 3 then ROW3
    else if h == 4 then ROW4
    else if h == 5 then ROW5
    else if h == 6 then ROW6
    else if h == 7 then ROW7
    else if h == 8 then ROW8
    else if h == 9 then ROW9
    else if h == 10 then ROW10
    else if h == 11 then ROW11
    else if h == 12 then ROW12
    else if h == 13 then ROW13
    else if h == 14 then ROW14
    else ROW15
  }

  /** Entry x of the table. */
  function Table(x: bv64): bv64 {
    Row(x >> 4)[(x & 15) as nat]
  }

  // Exclusive or and the two things a step looks at, named so that proofs can treat them as symbols.

  function Xor(a: bv64, b: bv64): bv64 {
    a ^ b
  }

  function Half(a: bv64): bv64 {
    a >> 1
  }

  predicate Odd(a: bv64) {
    a & 1 == 1
  }

  // --- the definition ---

  /** The reflected checksum after one more bit of the message. */
  function Feed(c: bv64, bit: bool): bv64 {
    if Odd(c) != bit then Xor(Half(c), 0x95ac9329ac4bc9b5) else Half(c)
  }

  function Serial(c: bv64, bits: seq<bool>): bv64 {
    if bits == [] then c else Feed(Serial(c, bits[..|bits| - 1]), bits[|bits| - 1])
  }

  /** The bits of a byte, lowest first. */
  function BitsOf(b: bv64): (bits: seq<bool>)
    ensures |bits| == 8
  {
    [Odd(b), Odd(b >> 1), Odd(b >> 2), Odd(b >> 3), Odd(b >> 4), Odd(b >> 5), Odd(b >> 6), Odd(b >> 7)]
  }

  function MessageBits(s: seq<bv8>): (bits: seq<bool>)
    ensures |bits| == 8 * |s|
  {
    if s == [] then [] else MessageBits(s[..|s| - 1]) + BitsOf(s[|s| - 1] as bv64)
  }

  // --- eight steps at once ---

  /** Bits 8 * i to 8 * i + 7 of a message are those of byte i, the lowest first. */
  lemma {:induction false} MessageBitsAt(s: seq<bv8>, i: nat)
    requires i < |s|
    ensures
      var b := s[i];
      MessageBits(s)[8 * i..8 * i + 8] ==
        [b & 0x01 != 0, b & 0x02 != 0, b & 0x04 != 0, b & 0x08 != 0,
         b & 0x10 != 0, b & 0x20 != 0, b & 0x40 != 0, b & 0x80 != 0]
  {
    BitsSlice(s, i);
    ByteBits(s[i]);
  }

  lemma {:induction false} BitsSlice(s: seq<bv8>, i: nat)
    requires i < |s|
    ensures MessageBits(s)[8 * i..8 * i + 8] == BitsOf(s[i] as bv64)
  {
    hide *;
    var n := |s| - 1;
    var rest, last := MessageBits(s[..n]), BitsOf(s[n] as bv64);
    LastByte(s);
    if i < n {
      BitsSlice(s[..n], i);
      SliceBefore(rest, last, 8 * i, 8 * i + 8);
    } else {
      SliceAfter(rest, last, 8 * i, 8 * i + 8);
    }
  }

  lemma LastByte(s: seq<bv8>)
    requires s != []
    ensures MessageBits(s) == MessageBits(s[..|s| - 1]) + BitsOf(s[|s| - 1] as bv64)
  {
  }

  lemma SliceAfter(a: seq<bool>, b: seq<bool>, i: nat, j: nat)
    requires i == |a| && j == |a + b|
    ensures (a + b)[i..j] == b
  {
  }

  lemma SliceBefore(a: seq<bool>, b: seq<bool>, i: nat, j: nat)
    requires i <= j <= |a|
    ensures (a + b)[i..j] == a[i..j]
  {
  }

  lemma ByteBits(b: bv8)
    ensures BitsOf(b as bv64) ==
      [b & 0x01 != 0, b & 0x02 != 0, b & 0x04 != 0, b & 0x08 != 0,
       b & 0x10 != 0, b & 0x20 != 0, b & 0x40 != 0, b & 0x80 != 0]
  {
  }

  function Step(x: bv64): bv64 {
    Feed(x, false)
  }

  function Step8(x: bv64): bv64 {
    Step(Step(Step(Step(Step(Step(Step(Step(x))))))))
  }

  lemma XorLaws(a: bv64, b: bv64, p: bv64)
    ensures Xor(Xor(a, p), b) == Xor(Xor(a, b), p) && Xor(a, Xor(b, p)) == Xor(Xor(a, b), p)
    ensures Xor(Xor(a, p), Xor(b, p)) == Xor(a, b)
  {
  }

  lemma XorParts(x: bv64, y: bv64)
    ensures Odd(Xor(x, y)) == (Odd(x) != Odd(y)) && Half(Xor(x, y)) == Xor(Half(x), Half(y))
  {
  }

  /** Feeding is linear. */
  lemma FeedLinear(x: bv64, y: bv64, a: bool, b: bool)
    ensures Feed(Xor(x, y), a != b) == Xor(Feed(x, a), Feed(y, b))
  {
    hide Xor, Half, Odd;
    XorParts(x, y);
    XorLaws(Half(x), Half(y), 0x95ac9329ac4bc9b5);
  }

  lemma StepLinear(x: bv64, y: bv64)
    ensures Step(Xor(x, y)) == Xor(Step(x), Step(y))
  {
    FeedLinear(x, y, false, false);
  }

  lemma Step8Linear(x: bv64, y: bv64)
    ensures Step8(Xor(x, y)) == Xor(Step8(x), Step8(y))
  {
    hide Xor, Step;
    var x1, y1 := Step(x), Step(y);
    var x2, y2 := Step(x1), Step(y1);
    var x3, y3 := Step(x2), Step(y2);
    var x4, y4 := Step(x3), Step(y3);
    var x5, y5 := Step(x4), Step(y4);
    var x6, y6 := Step(x5), Step(y5);
    StepLinear(x, y);
    StepLinear(x1, y1);
    StepLinear(x2, y2);
    StepLinear(x3, y3);
    StepLinear(x4, y4);
    StepLinear(x5, y5);
    StepLinear(x6, y6);
    StepLinear(Step(x6), Step(y6));
  }

  // --- the table holds eight steps of each byte ---

  lemma Row1(k: nat)
    requires k < 16
    ensures ROW1[k] == Xor(ROW1[0], ROW0[k])
  {
    if k < 8 { assert k < 4 || 4 <= k; } else { assert k < 12 || 12 <= k; }
  }

  lemma Row2(k: nat)
    requires k < 16
    ensures ROW2[k] == Xor(ROW2[0], ROW0[k])
  {
    if k < 8 { assert k < 4 || 4 <= k; } else { assert k < 12 || 12 <= k; }
  }

  lemma Row3(k: nat)
    requires k < 16
    ensures ROW3[k] == Xor(ROW3[0], ROW0[k])
  {
    if k < 8 { assert k < 4 || 4 <= k; } else { assert k < 12 || 12 <= k; }
  }

  lemma Row4(k: nat)
    requires k < 16
    ensures ROW4[k] == Xor(ROW4[0], ROW0[k])
  {
    if k < 8 { assert k < 4 || 4 <= k; } else { assert k < 12 || 12 <= k; }
  }

  lemma Row5(k: nat)
    requires k < 16
    ensures ROW5[k] == Xor(ROW5[0], ROW0[k])
  {
    if k < 8 { assert k < 4 || 4 <= k; } else { assert k < 12 || 12 <= k; }
  }

  lemma Row6(k: nat)
    requires k < 16
    ensures ROW6[k] == Xor(ROW6[0], ROW0[k])
  {
    if k < 8 { assert k < 4 || 4 <= k; } else { assert k < 12 || 12 <= k; }
  }

  lemma Row7(k: nat)
    requires k < 16
    ensures ROW7[k] == Xor(ROW7[0], ROW0[k])
  {
    if k < 8 { assert k < 4 || 4 <= k; } else { assert k < 12 || 12 <= k; }
  }

  lemma Row8(k: nat)
    requires k < 16
    ensures ROW8[k] == Xor(ROW8[0], ROW0[k])
  {
    if k < 8 { assert k < 4 || 4 <= k; } else { assert k < 12 || 12 <= k; }
  }

  lemma Row9(k: nat)
    requires k < 16
    ensures ROW9[k] == Xor(ROW9[0], ROW0[k])
  {
    if k < 8 { assert k < 4 || 4 <= k; } else { assert k < 12 || 12 <= k; }
  }

  lemma Row10(k: nat)
    requires k < 16
    ensures ROW10[k] == Xor(ROW10[0], ROW0[k])
  {
    if k < 8 { assert k < 4 || 4 <= k; } else { assert k < 12 || 12 <= k; }
  }

  lemma Row11(k: nat)
    requires k < 16
    ensures ROW11[k] == Xor(ROW11[0], ROW0[k])
  {
    if k < 8 { assert k < 4 || 4 <= k; } else { assert k < 12 || 12 <= k; }
  }

  lemma Row12(k: nat)
    requires k < 16
    ensures ROW12[k] == Xor(ROW12[0], ROW0[k])
  {
    if k < 8 { assert k < 4 || 4 <= k; } else { assert k < 12 || 12 <= k; }
  }

  lemma Row13(k: nat)
    requires k < 16
    ensures ROW13[k] == Xor(ROW13[0], ROW0[k])
  {
    if k < 8 { assert k < 4 || 4 <= k; } else { assert k < 12 || 12 <= k; }
  }

  lemma Row14(k: nat)
    requires k < 16
    ensures ROW14[k] == Xor(ROW14[0], ROW0[k])
  {
    if k < 8 { assert k < 4 || 4 <= k; } else { assert k < 12 || 12 <= k; }
  }

  lemma Row15(k: nat)
    requires k < 16
    ensures ROW15[k] == Xor(ROW15[0], ROW0[k])
  {
    if k < 8 { assert k < 4 || 4 <= k; } else { assert k < 12 || 12 <= k; }
  }

  lemma StepZero()
    ensures ROW0[0] == Step8(0) == 0
  {
  }

  /** The first row is linear in its column, and so is the first column in its row. */
  lemma FirstRow()
    ensures ROW0[3] == Xor(ROW0[2], ROW0[1]) && ROW0[5] == Xor(ROW0[4], ROW0[1]) && ROW0[6] == Xor(ROW0[4], ROW0[2])
    ensures ROW0[7] == Xor(ROW0[6], ROW0[1]) && ROW0[9] == Xor(ROW0[8], ROW0[1]) && ROW0[10] == Xor(ROW0[8], ROW0[2])
    ensures ROW0[11] == Xor(ROW0[10], ROW0[1]) && ROW0[12] == Xor(ROW0[8], ROW0[4])
    ensures ROW0[13] == Xor(ROW0[12], ROW0[1])
    ensures ROW0[14] == Xor(ROW0[12], ROW0[2]) && ROW0[15] == Xor(ROW0[14], ROW0[1])
  {
  }

  lemma FirstColumn()
    ensures ROW3[0] == Xor(ROW2[0], ROW1[0]) && ROW5[0] == Xor(ROW4[0], ROW1[0]) && ROW6[0] == Xor(ROW4[0], ROW2[0])
    ensures ROW7[0] == Xor(ROW6[0], ROW1[0]) && ROW9[0] == Xor(ROW8[0], ROW1[0]) && ROW10[0] == Xor(ROW8[0], ROW2[0])
    ensures ROW11[0] == Xor(ROW10[0], ROW1[0]) && ROW12[0] == Xor(ROW8[0], ROW4[0])
    ensures ROW13[0] == Xor(ROW12[0], ROW1[0])
    ensures ROW14[0] == Xor(ROW12[0], ROW2[0]) && ROW15[0] == Xor(ROW14[0], ROW1[0])
  {
  }

  lemma Base1()
    ensures ROW0[1] == Step8(1)
  {
  }

  lemma Base2()
    ensures ROW0[2] == Step8(2)
  {
  }

  lemma Base4()
    ensures ROW0[4] == Step8(4)
  {
  }

  lemma Base8()
    ensures ROW0[8] == Step8(8)
  {
  }

  lemma Base16()
    ensures ROW1[0] == Step8(16)
  {
  }

  lemma Base32()
    ensures ROW2[0] == Step8(32)
  {
  }

  lemma Base64()
    ensures ROW4[0] == Step8(64)
  {
  }

  lemma Base128()
    ensures ROW8[0] == Step8(128)
  {
  }

  lemma FirstRowIs()
    ensures |ROW0| == 16
    ensures ROW0[0] == Step8(0) && ROW0[1] == Step8(1) && ROW0[2] == Step8(2)
    ensures ROW0[3] == Step8(3) && ROW0[4] == Step8(4) && ROW0[5] == Step8(5)
    ensures ROW0[6] == Step8(6) && ROW0[7] == Step8(7) && ROW0[8] == Step8(8)
    ensures ROW0[9] == Step8(9) && ROW0[10] == Step8(10) && ROW0[11] == Step8(11)
    ensures ROW0[12] == Step8(12) && ROW0[13] == Step8(13) && ROW0[14] == Step8(14)
    ensures ROW0[15] == Step8(15)
  {
    hide Step8, Xor;
    FirstRow();
    StepZero();
    Base1();
    Base2();
    Base4();
    Base8();
    Step8Linear(2, 1);
    XorIs(2, 1, 3);
    Step8Linear(4, 1);
    XorIs(4, 1, 5);
    Step8Linear(4, 2);
    XorIs(4, 2, 6);
    Step8Linear(6, 1);
    XorIs(6, 1, 7);
    Step8Linear(8, 1);
    XorIs(8, 1, 9);
    Step8Linear(8, 2);
    XorIs(8, 2, 10);
    Step8Linear(10, 1);
    XorIs(10, 1, 11);
    Step8Linear(8, 4);
    XorIs(8, 4, 12);
    Step8Linear(12, 1);
    XorIs(12, 1, 13);
    Step8Linear(12, 2);
    XorIs(12, 2, 14);
    Step8Linear(14, 1);
    XorIs(14, 1, 15);
  }

  lemma LowRow(y: bv64)
    requires y < 16
    ensures ROW0[y as nat] == Step8(y)
  {
    hide Step8;
    FirstRowIs();
    if y == 0 {
    } else if y == 1 {
    } else if y == 2 {
    } else if y == 3 {
    } else if y == 4 {
    } else if y == 5 {
    } else if y == 6 {
    } else if y == 7 {
    } else if y == 8 {
    } else if y == 9 {
    } else if y == 10 {
    } else if y == 11 {
    } else if y == 12 {
    } else if y == 13 {
    } else if y == 14 {
    } else if y == 15 {
    }
  }

  lemma Head(h: bv64)
    requires h < 16
    ensures Row(h)[0] == Step8(h << 4)
    decreases h
  {
    hide Step8, Xor;
    FirstColumn();
    if h == 0 { StepZero(); }
    else if h == 1 { Base16(); }
    else if h == 2 { Base32(); }
    else if h == 3 { Head(2); Head(1); Step8Linear(32, 16); XorIs(32, 16, 48); }
    else if h == 4 { Base64(); }
    else if h == 5 { Head(4); Head(1); Step8Linear(64, 16); XorIs(64, 16, 80); }
    else if h == 6 { Head(4); Head(2); Step8Linear(64, 32); XorIs(64, 32, 96); }
    else if h == 7 { Head(6); Head(1); Step8Linear(96, 16); XorIs(96, 16, 112); }
    else if h == 8 { Base128(); }
    else if h == 9 { Head(8); Head(1); Step8Linear(128, 16); XorIs(128, 16, 144); }
    else if h == 10 { Head(8); Head(2); Step8Linear(128, 32); XorIs(128, 32, 160); }
    else if h == 11 { Head(10); Head(1); Step8Linear(160, 16); XorIs(160, 16, 176); }
    else if h == 12 { Head(8); Head(4); Step8Linear(128, 64); XorIs(128, 64, 192); }
    else if h == 13 { Head(12); Head(1); Step8Linear(192, 16); XorIs(192, 16, 208); }
    else if h == 14 { Head(12); Head(2); Step8Linear(192, 32); XorIs(192, 32, 224); }
    else if h == 15 { Head(14); Head(1); Step8Linear(224, 16); XorIs(224, 16, 240); }
  }

  lemma RowIs(h: bv64, k: nat)
    requires h < 16 && k < 16
    ensures Row(h)[k] == Xor(Row(h)[0], ROW0[k])
  {
    hide Xor;
    if h == 0 { StepZero(); XorZero(ROW0[k]); }
    else if h == 1 { Row1(k); }
    else if h == 2 { Row2(k); }
    else if h == 3 { Row3(k); }
    else if h == 4 { Row4(k); }
    else if h == 5 { Row5(k); }
    else if h == 6 { Row6(k); }
    else if h == 7 { Row7(k); }
    else if h == 8 { Row8(k); }
    else if h == 9 { Row9(k); }
    else if h == 10 { Row10(k); }
    else if h == 11 { Row11(k); }
    else if h == 12 { Row12(k); }
    else if h == 13 { Row13(k); }
    else if h == 14 { Row14(k); }
    else if h == 15 { Row15(k); }
  }

  lemma TableIs(x: bv64)
    requires x < 256
    ensures Table(x) == Step8(x)
  {
    hide Row, Step8;
    Head(x >> 4);
    LowRow(x & 15);
    RowIs(x >> 4, (x & 15) as nat);
    Step8Linear((x >> 4) << 4, x & 15);
  }

  lemma XorIs(a: bv64, b: bv64, c: bv64)
    requires a ^ b == c
    ensures Xor(a, b) == c
  {
  }

  lemma XorZero(a: bv64)
    ensures Xor(a, 0) == a == Xor(0, a)
  {
  }

  // --- a byte at a time is a bit at a time ---

  /** Feeding a bit can wait: feed 0 to a sum whose lowest bit is that bit. */
  lemma FeedLater(c: bv64, y: bv64)
    ensures Step(Xor(c, y)) == Xor(Feed(c, Odd(y)), Half(y))
  {
    hide Half;
    XorParts(c, y);
    XorLaws(Half(c), Half(y), 0x95ac9329ac4bc9b5);
    hide Xor, Odd;
  }

  lemma FeedByte(c: bv64, b: bv64)
    requires b < 256
    ensures Serial(c, BitsOf(b)) == Step8(Xor(c, b))
  {
    HalfAgain(b);
    FeedEight(c, b, b >> 1, b >> 2, b >> 3, b >> 4, b >> 5, b >> 6, b >> 7);
  }

  lemma FeedEight(c: bv64, b0: bv64, b1: bv64, b2: bv64, b3: bv64, b4: bv64, b5: bv64, b6: bv64, b7: bv64)
    requires b1 == Half(b0) && b2 == Half(b1) && b3 == Half(b2) && b4 == Half(b3) && b5 == Half(b4) && b6 == Half(b5)
    requires b7 == Half(b6)
    requires Half(b7) == 0
    ensures Serial(c, [Odd(b0), Odd(b1), Odd(b2), Odd(b3), Odd(b4), Odd(b5), Odd(b6), Odd(b7)]) == Step8(Xor(c, b0))
  {
    hide Xor, Half, Odd, Feed, Step;
    var c1 := Feed(c, Odd(b0));
    var c2 := Feed(c1, Odd(b1));
    var c3 := Feed(c2, Odd(b2));
    var c4 := Feed(c3, Odd(b3));
    var c5 := Feed(c4, Odd(b4));
    var c6 := Feed(c5, Odd(b5));
    var c7 := Feed(c6, Odd(b6));
    var c8 := Feed(c7, Odd(b7));
    FeedLater(c, b0);
    FeedLater(c1, b1);
    FeedLater(c2, b2);
    FeedLater(c3, b3);
    FeedLater(c4, b4);
    FeedLater(c5, b5);
    FeedLater(c6, b6);
    FeedLater(c7, b7);
    XorZero(c8);
    EightBits(c, [Odd(b0), Odd(b1), Odd(b2), Odd(b3), Odd(b4), Odd(b5), Odd(b6), Odd(b7)], c1, c2, c3, c4, c5, c6, c7,
      c8);
  }

  lemma HalfAgain(b: bv64)
    requires b < 256
    ensures Half(b) == b >> 1 && Half(b >> 1) == b >> 2 && Half(b >> 2) == b >> 3 && Half(b >> 3) == b >> 4
    ensures Half(b >> 4) == b >> 5 && Half(b >> 5) == b >> 6 && Half(b >> 6) == b >> 7 && Half(b >> 7) == 0
  {
  }

  lemma EightBits(c: bv64, s: seq<bool>, c1: bv64, c2: bv64, c3: bv64, c4: bv64, c5: bv64, c6: bv64, c7: bv64, c8: bv64)
    requires |s| == 8 && c1 == Feed(c, s[0]) && c2 == Feed(c1, s[1]) && c3 == Feed(c2, s[2]) && c4 == Feed(c3, s[3])
    requires c5 == Feed(c4, s[4]) && c6 == Feed(c5, s[5]) && c7 == Feed(c6, s[6]) && c8 == Feed(c7, s[7])
    ensures Serial(c, s) == c8
  {
    hide Feed;
    assert Serial(c, s[..0]) == c;
    assert s[..1][..0] == s[..0] && Serial(c, s[..1]) == c1;
    assert s[..2][..1] == s[..1] && Serial(c, s[..2]) == c2;
    assert s[..3][..2] == s[..2] && Serial(c, s[..3]) == c3;
    assert s[..4][..3] == s[..3] && Serial(c, s[..4]) == c4;
    assert s[..5][..4] == s[..4] && Serial(c, s[..5]) == c5;
    assert s[..6][..5] == s[..5] && Serial(c, s[..6]) == c6;
    assert s[..7][..6] == s[..6] && Serial(c, s[..7]) == c7;
    assert s[..8][..7] == s[..7] && s[..8] == s;
  }

  lemma TableFeedsByte(c: bv64, b: bv64)
    requires b < 256
    ensures Xor(Table(Xor(c & 0xff, b)), c >> 8) == Serial(c, BitsOf(b))
  {
    hide Step8, Table, Serial, Xor, BitsOf;
    var x, h := Xor(c & 0xff, b), c & 0xffff_ffff_ffff_ff00;
    LowHigh(c, b);
    TableIs(x);
    FeedByte(c, b);
    HighStep(h);
    Step8Linear(x, h);
  }

  lemma LowHigh(c: bv64, b: bv64)
    requires b < 256
    ensures Xor(c & 0xff, b) < 256 && Xor(Xor(c & 0xff, b), c & 0xffff_ffff_ffff_ff00) == Xor(c, b)
    ensures (c & 0xffff_ffff_ffff_ff00) & 0xff == 0 && (c & 0xffff_ffff_ffff_ff00) >> 8 == c >> 8
  {
  }

  lemma HighStep(h: bv64)
    requires h & 0xff == 0
    ensures Step8(h) == h >> 8
  {
  }

  /** Checksums of concatenations compose. */
  lemma {:induction false} SerialConcat(c: bv64, a: seq<bool>, b: seq<bool>)
    ensures Serial(c, a + b) == Serial(Serial(c, a), b)
  {
    hide Feed;
    if b == [] {
      assert a + b == a;
    } else {
      var b' := b[..|b| - 1];
      SerialConcat(c, a, b');
      assert (a + b)[..|a + b| - 1] == a + b';
    }
  }

  function XorBits(a: seq<bool>, b: seq<bool>): (r: seq<bool>)
    requires |a| == |b|
    ensures |r| == |a| && forall i :: 0 <= i < |a| ==> r[i] == (a[i] != b[i])
  {
    seq(|a|, i requires 0 <= i < |a| => a[i] != b[i])
  }

  /** Checksums are linear on messages of equal length. */
  lemma {:induction false} SerialLinear(c: bv64, d: bv64, a: seq<bool>, b: seq<bool>)
    requires |a| == |b|
    ensures Serial(Xor(c, d), XorBits(a, b)) == Xor(Serial(c, a), Serial(d, b))
  {
    hide Feed, Xor;
    if a != [] {
      var n := |a| - 1;
      SerialLinear(c, d, a[..n], b[..n]);
      assert XorBits(a, b)[..n] == XorBits(a[..n], b[..n]);
      FeedLinear(Serial(c, a[..n]), Serial(d, b[..n]), a[n], b[n]);
    }
  }

  /** A message that precedes another shifts, by the other's length, into the sum of both. */
  lemma ConcatShift(a: seq<bool>, b: seq<bool>)
    ensures Serial(0, a + b) == Xor(Serial(Serial(0, a), seq(|b|, _ => false)), Serial(0, b))
  {
    var zeros := seq(|b|, _ => false);
    SerialConcat(0, a, b);
    XorZero(Serial(0, a));
    SerialLinear(Serial(0, a), 0, zeros, b);
    assert XorBits(zeros, b) == b;
  }

  /** The checksum of the message s, by the table. */
  method Crc64(s: seq<bv8>) returns (crc: bv64)
    ensures crc == Serial(0, MessageBits(s))
  {
    hide Serial, Table, Xor, BitsOf;
    crc := 0;
    var j := 0;
    assert s[..0] == [];
    NoBits();
    while j < |s|
      invariant 0 <= j <= |s|
      invariant crc == Serial(0, MessageBits(s[..j]))
    {
      var byte := s[j] as bv64;
      assert s[..j + 1][..j] == s[..j];
      TableFeedsByte(crc, byte);
      SerialConcat(0, MessageBits(s[..j]), BitsOf(byte));
      crc := Xor(Table(Xor(crc & 0xff, byte)), crc >> 8);
      j := j + 1;
    }
    assert s[..|s|] == s;
  }

  lemma NoBits()
    ensures Serial(0, []) == 0
  {
  }
}
