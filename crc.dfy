/** The reflected, bitwise CRC-8 of the AA bus (aacrc.c) and the parametrised
    CRC-8 with the polynomial search that was used to find its parameters
    (findpolynomial.c). Registers and bytes are `bv8`, as `uint8_t` is, so
    shifts and XORs wrap exactly as in C. A C buffer with its length is a
    `seq<bv8>`. */
module Crc {
  import opened Wrappers

  /** The polynomial and final XOR hard-wired into AACRC8. */
  const AaPoly: bv8 := 0xB2
  const AaFinalXor: bv8 := 0xFF

  // ---------------------------------------------------------------------
  // Specification of the register arithmetic
  // ---------------------------------------------------------------------

  /** One iteration of the inner loop: shift right by one, and XOR the
      polynomial in when the bit shifted out was set. */
  function ShiftOnce(crc: bv8, poly: bv8): bv8
  {
    if crc & 0x01 != 0 then (crc >> 1) ^ poly else crc >> 1
  }

  /** The register after `n` iterations of the inner loop. */
  function Shifts(crc: bv8, poly: bv8, n: nat): bv8
  {
    if n == 0 then crc else ShiftOnce(Shifts(crc, poly, n - 1), poly)
  }

  /** The work of one outer iteration: XOR the byte in, then eight shifts. */
  function ByteStep(crc: bv8, b: bv8, poly: bv8): bv8
  {
    Shifts(crc ^ b, poly, 8)
  }

  /** The register after consuming `data` front to back, starting from `crc`. */
  function Fold(crc: bv8, data: seq<bv8>, poly: bv8): bv8
    decreases |data|
  {
    if data == [] then crc else Fold(ByteStep(crc, data[0], poly), data[1..], poly)
  }

  /** The register before the final XOR; it starts at 0x00. */
  function Register(data: seq<bv8>, poly: bv8): bv8
  {
    Fold(0x00, data, poly)
  }

  /** The value CRC8(data, length, poly, final_xor) returns. */
  function Crc8(data: seq<bv8>, poly: bv8, finalXor: bv8): bv8
  {
    Register(data, poly) ^ finalXor
  }

  // ---------------------------------------------------------------------
  // Properties of the specification
  // ---------------------------------------------------------------------

  /** Appending a byte applies one more byte step: the computation is a left
      fold over the input. */
  lemma {:induction false} FoldSnoc(crc: bv8, data: seq<bv8>, b: bv8, poly: bv8)
    ensures Fold(crc, data + [b], poly) == ByteStep(Fold(crc, data, poly), b, poly)
    decreases |data|
  {
    if data == [] {
      assert [b][1..] == [];
      assert Fold(ByteStep(crc, b, poly), [], poly) == ByteStep(crc, b, poly);
    } else {
      assert (data + [b])[0] == data[0];
      assert (data + [b])[1..] == data[1..] + [b];
      FoldSnoc(ByteStep(crc, data[0], poly), data[1..], b, poly);
    }
  }

  lemma RegisterSnoc(data: seq<bv8>, b: bv8, poly: bv8)
    ensures Register(data + [b], poly) == ByteStep(Register(data, poly), b, poly)
  {
    FoldSnoc(0x00, data, b, poly);
  }

  /** The register of a concatenation continues from the register of the prefix. */
  lemma {:induction false} FoldAppend(crc: bv8, front: seq<bv8>, back: seq<bv8>, poly: bv8)
    ensures Fold(crc, front + back, poly) == Fold(Fold(crc, front, poly), back, poly)
    decreases |front|
  {
    if front == [] {
      assert front + back == back;
    } else {
      assert (front + back)[0] == front[0];
      assert (front + back)[1..] == front[1..] + back;
      FoldAppend(ByteStep(crc, front[0], poly), front[1..], back, poly);
    }
  }

  /** On empty input the register stays 0x00, so the result is the final XOR
      itself: 0xFF for AACRC8, 0x00 for CRC8 with final_xor = 0. */
  lemma EmptyInput(poly: bv8, finalXor: bv8)
    ensures Crc8([], poly, finalXor) == finalXor
    ensures Crc8([], AaPoly, AaFinalXor) == 0xFF
  {
  }

  /** The final XOR is applied once, at the end, and undoing it gives the raw
      register back. */
  lemma FinalXorOnce(data: seq<bv8>, poly: bv8, finalXor: bv8)
    ensures Crc8(data, poly, finalXor) == Crc8(data, poly, 0x00) ^ finalXor
    ensures Crc8(data, poly, finalXor) ^ finalXor == Register(data, poly)
  {
  }

  // ---------------------------------------------------------------------
  // The C routines
  // ---------------------------------------------------------------------

  /** AACRC8: the CRC with polynomial 0xB2 and final XOR 0xFF. The ghost
      `shifts` counts inner-loop iterations. */
  method AaCrc8(data: seq<bv8>) returns (crc: bv8, ghost shifts: nat)
    ensures crc == Crc8(data, AaPoly, AaFinalXor)
    ensures shifts == 8 * |data|
  {
    crc := 0x00;
    shifts := 0;
    for i := 0 to |data|
      invariant crc == Register(data[..i], AaPoly)
      invariant shifts == 8 * i
    {
      crc := crc ^ data[i];
      ghost var mixed := crc;
      for j := 0 to 8
        invariant crc == Shifts(mixed, AaPoly, j)
        invariant shifts == 8 * i + j
      {
        if crc & 0x01 != 0 {
          crc := (crc >> 1) ^ 0xB2;
        } else {
          crc := crc >> 1;
        }
        shifts := shifts + 1;
      }
      assert data[..i + 1] == data[..i] + [data[i]];
      RegisterSnoc(data[..i], data[i], AaPoly);
    }
    assert data[..|data|] == data;
    crc := crc ^ 0xFF;
  }

  /** CRC8 of findpolynomial.c: the same loops over a given polynomial and
      final XOR. */
  method ComputeCrc8(data: seq<bv8>, poly: bv8, finalXor: bv8) returns (crc: bv8, ghost shifts: nat)
    ensures crc == Crc8(data, poly, finalXor)
    ensures shifts == 8 * |data|
  {
    crc := 0x00;
    shifts := 0;
    for i := 0 to |data|
      invariant crc == Register(data[..i], poly)
      invariant shifts == 8 * i
    {
      crc := crc ^ data[i];
      ghost var mixed := crc;
      for j := 0 to 8
        invariant crc == Shifts(mixed, poly, j)
        invariant shifts == 8 * i + j
      {
        if crc & 0x01 != 0 {
          crc := (crc >> 1) ^ poly;
        } else {
          crc := crc >> 1;
        }
        shifts := shifts + 1;
      }
      assert data[..i + 1] == data[..i] + [data[i]];
      RegisterSnoc(data[..i], data[i], poly);
    }
    assert data[..|data|] == data;
    crc := crc ^ finalXor;
  }

  // ---------------------------------------------------------------------
  // The polynomial search of findpolynomial.c's main
  // ---------------------------------------------------------------------

  /** The candidates the search visits: poly 0x00 .. 0xFE (the loop condition
      is poly < 0xff, so 0xFF is never tried), with final XOR 0x00 or 0xFF. */
  predicate IsCandidate(poly: bv8, finalXor: bv8)
  {
    poly != 0xFF && (finalXor == 0x00 || finalXor == 0xFF)
  }

  /** The search's iteration order: by poly, and for one poly the final XOR
      0x00 before 0xFF. */
  predicate Before(p: bv8, x: bv8, q: bv8, y: bv8)
  {
    p < q || (p == q && x == 0x00 && y == 0xFF)
  }

  /** A candidate fits when it reproduces every expected value. */
  ghost predicate FitsAll(messages: seq<seq<bv8>>, expected: seq<bv8>, poly: bv8, finalXor: bv8)
    requires |messages| == |expected|
  {
    forall i :: 0 <= i < |messages| ==> Crc8(messages[i], poly, finalXor) == expected[i]
  }

  /** The candidates the loops have rejected once they stand at (poly, x). */
  predicate Visited(p: bv8, y: bv8, poly: bv16, x: bv16)
  {
    (p as bv16) < poly || (p as bv16 == poly && ((y == 0x00 && x >= 1) || (y == 0xFF && x >= 2)))
  }

  /** The final XOR tried for the inner counter x. */
  function XorFor(x: bv16): bv8
  {
    if x != 0 then 0xFF else 0x00
  }

  /** Trying (poly, XorFor(x)) adds exactly that candidate to the visited ones. */
  lemma VisitedAfterTry(poly: bv16, x: bv16)
    requires poly < 0xFF && x <= 0x01
    ensures forall p, y :: Visited(p, y, poly, x + 1) ==> Visited(p, y, poly, x) || (p == poly as bv8 && y == XorFor(x))
  {
  }

  /** Once both final XORs of poly are tried, every candidate up to poly is visited. */
  lemma VisitedAfterPoly(poly: bv16)
    requires poly < 0xFF
    ensures forall p, y :: IsCandidate(p, y) && Visited(p, y, poly + 1, 0) ==> Visited(p, y, poly, 2)
  {
  }

  /** The candidates before (poly, XorFor(x)) are the visited ones. */
  lemma BeforeIsVisited(poly: bv16, x: bv16)
    requires poly < 0xFF && x <= 0x01
    ensures forall p, y :: IsCandidate(p, y) && Before(p, y, poly as bv8, XorFor(x)) ==> Visited(p, y, poly, x)
  {
  }

  /** When the outer loop ends every candidate has been visited. */
  lemma AllVisited()
    ensures forall p, y :: IsCandidate(p, y) ==> Visited(p, y, 0xFF, 0)
  {
  }

  /** The innermost loop of the search: the polyFitsAll flag, cleared by any
      message whose CRC differs from its expected value; every message is
      checked (there is no early exit). */
  method CheckCandidate(messages: seq<seq<bv8>>, expected: seq<bv8>, poly: bv8, xor: bv8) returns (polyFitsAll: bool)
    requires |messages| == |expected|
    ensures polyFitsAll <==> FitsAll(messages, expected, poly, xor)
  {
    polyFitsAll := true;
    for i := 0 to |messages|
      invariant polyFitsAll <==> forall m :: 0 <= m < i ==> Crc8(messages[m], poly, xor) == expected[m]
    {
      var calculated, _ := ComputeCrc8(messages[i], poly, xor);
      if calculated != expected[i] {
        polyFitsAll := false;
      }
    }
  }

  /** The nested loops of main, with uint16_t counters as in C: first-match
      search over the candidates. */
  method SearchPolynomial(messages: seq<seq<bv8>>, expected: seq<bv8>) returns (found: Option<(bv8, bv8)>)
    requires |messages| == |expected|
    ensures found.None? <==> forall p, x :: IsCandidate(p, x) ==> !FitsAll(messages, expected, p, x)
    ensures found.Some? ==>
      IsCandidate(found.value.0, found.value.1) && FitsAll(messages, expected, found.value.0, found.value.1)
    ensures found.Some? ==> forall p, x :: IsCandidate(p, x) && Before(p, x, found.value.0, found.value.1) ==>
      !FitsAll(messages, expected, p, x)
  {
    var poly: bv16 := 0x00;
    while poly < 0xFF
      invariant poly <= 0xFF
      invariant forall p, y :: IsCandidate(p, y) && Visited(p, y, poly, 0) ==> !FitsAll(messages, expected, p, y)
    {
      var x: bv16 := 0x00;
      while x <= 0x01
        invariant x <= 0x02
        invariant forall p, y :: IsCandidate(p, y) && Visited(p, y, poly, x) ==> !FitsAll(messages, expected, p, y)
      {
        var xor: bv8 := if x != 0 then 0xFF else 0x00;
        var polyFitsAll := CheckCandidate(messages, expected, poly as bv8, xor);
        if polyFitsAll {
          BeforeIsVisited(poly, x);
          return Some((poly as bv8, xor));
        }
        VisitedAfterTry(poly, x);
        x := x + 1;
      }
      VisitedAfterPoly(poly);
      poly := poly + 1;
    }
    AllVisited();
    return None;
  }

  /** "Ping" */
  const PingBytes: seq<bv8> := [0x50, 0x69, 0x6E, 0x67]

  /** "ackCAN 1" */
  const AckOneBytes: seq<bv8> := [0x61, 0x63, 0x6B, 0x43, 0x41, 0x4E, 0x20, 0x31]

  /** "setCAN " */
  const SetCanBytes: seq<bv8> := [0x73, 0x65, 0x74, 0x43, 0x41, 0x4E, 0x20]

  /** "getSystemData" */
  const GetSystemDataBytes: seq<bv8> := [0x67, 0x65, 0x74, 0x53, 0x79, 0x73, 0x74, 0x65, 0x6D, 0x44, 0x61, 0x74, 0x61]

  /** "CAN2 in use" */
  const CanInUseBytes: seq<bv8> := [0x43, 0x41, 0x4E, 0x32, 0x20, 0x69, 0x6E, 0x20, 0x75, 0x73, 0x65]

  lemma PingVector()
    ensures Crc8(PingBytes, AaPoly, AaFinalXor) == 0xDB
  {
    var m0 := PingBytes;
    var m1 := m0[1..]; FoldStep(0x00, m0, 0x50, AaPoly, 0x16);
    var m2 := m1[1..]; FoldStep(0x16, m1, 0x69, AaPoly, 0xA7);
    var m3 := m2[1..]; FoldStep(0xA7, m2, 0x6E, AaPoly, 0x40);
    var m4 := m3[1..]; FoldStep(0x40, m3, 0x67, AaPoly, 0x24);
    assert m4 == [];
  }

  /** Bytes 0 to 2 of "ackCAN 1". */
  lemma AckOneFrom0()
    ensures Fold(0x00, AckOneBytes, AaPoly) == Fold(0xA7, AckOneBytes[3..], AaPoly)
  {
    var m0 := AckOneBytes;
    var m1 := m0[1..]; FoldStep(0x00, m0, 0x61, AaPoly, 0xF9);
    var m2 := m1[1..]; FoldStep(0xF9, m1, 0x63, AaPoly, 0x14);
    var m3 := m2[1..]; FoldStep(0x14, m2, 0x6B, AaPoly, 0xA7);
    assert m3 == AckOneBytes[3..];
  }

  /** Bytes 3 to 5 of "ackCAN 1". */
  lemma AckOneFrom3()
    ensures Fold(0xA7, AckOneBytes[3..], AaPoly) == Fold(0x7E, AckOneBytes[6..], AaPoly)
  {
    var m0 := AckOneBytes[3..];
    var m1 := m0[1..]; FoldStep(0xA7, m0, 0x43, AaPoly, 0x8D);
    var m2 := m1[1..]; FoldStep(0x8D, m1, 0x41, AaPoly, 0x86);
    var m3 := m2[1..]; FoldStep(0x86, m2, 0x4E, AaPoly, 0x7E);
    assert m3 == AckOneBytes[6..];
  }

  /** Bytes 6 to 7 of "ackCAN 1". */
  lemma AckOneFrom6()
    ensures Fold(0x7E, AckOneBytes[6..], AaPoly) == Fold(0x55, AckOneBytes[8..], AaPoly)
  {
    var m0 := AckOneBytes[6..];
    var m1 := m0[1..]; FoldStep(0x7E, m0, 0x20, AaPoly, 0x07);
    var m2 := m1[1..]; FoldStep(0x07, m1, 0x31, AaPoly, 0x55);
    assert m2 == AckOneBytes[8..];
  }

  lemma AckOneVector()
    ensures Crc8(AckOneBytes, AaPoly, AaFinalXor) == 0xAA
  {
    AckOneFrom0(); AckOneFrom3(); AckOneFrom6();
    assert AckOneBytes[8..] == [];
  }

  /** Bytes 0 to 2 of "setCAN ". */
  lemma SetCanFrom0()
    ensures Fold(0x00, SetCanBytes, AaPoly) == Fold(0x32, SetCanBytes[3..], AaPoly)
  {
    var m0 := SetCanBytes;
    var m1 := m0[1..]; FoldStep(0x00, m0, 0x73, AaPoly, 0xCA);
    var m2 := m1[1..]; FoldStep(0xCA, m1, 0x65, AaPoly, 0x03);
    var m3 := m2[1..]; FoldStep(0x03, m2, 0x74, AaPoly, 0x32);
    assert m3 == SetCanBytes[3..];
  }

  /** Bytes 3 to 5 of "setCAN ". */
  lemma SetCanFrom3()
    ensures Fold(0x32, SetCanBytes[3..], AaPoly) == Fold(0xFA, SetCanBytes[6..], AaPoly)
  {
    var m0 := SetCanBytes[3..];
    var m1 := m0[1..]; FoldStep(0x32, m0, 0x43, AaPoly, 0xB6);
    var m2 := m1[1..]; FoldStep(0xB6, m1, 0x41, AaPoly, 0x80);
    var m3 := m2[1..]; FoldStep(0x80, m2, 0x4E, AaPoly, 0xFA);
    assert m3 == SetCanBytes[6..];
  }

  /** Bytes 6 to 6 of "setCAN ". */
  lemma SetCanFrom6()
    ensures Fold(0xFA, SetCanBytes[6..], AaPoly) == Fold(0x4D, SetCanBytes[7..], AaPoly)
  {
    var m0 := SetCanBytes[6..];
    var m1 := m0[1..]; FoldStep(0xFA, m0, 0x20, AaPoly, 0x4D);
    assert m1 == SetCanBytes[7..];
  }

  lemma SetCanVector()
    ensures Crc8(SetCanBytes, AaPoly, AaFinalXor) == 0xB2
  {
    SetCanFrom0(); SetCanFrom3(); SetCanFrom6();
    assert SetCanBytes[7..] == [];
  }

  /** Bytes 0 to 2 of "getSystemData". */
  lemma GetSystemDataFrom0()
    ensures Fold(0x00, GetSystemDataBytes, AaPoly) == Fold(0x3D, GetSystemDataBytes[3..], AaPoly)
  {
    var m0 := GetSystemDataBytes;
    var m1 := m0[1..]; FoldStep(0x00, m0, 0x67, AaPoly, 0x7D);
    var m2 := m1[1..]; FoldStep(0x7D, m1, 0x65, AaPoly, 0xDA);
    var m3 := m2[1..]; FoldStep(0xDA, m2, 0x74, AaPoly, 0x3D);
    assert m3 == GetSystemDataBytes[3..];
  }

  /** Bytes 3 to 5 of "getSystemData". */
  lemma GetSystemDataFrom3()
    ensures Fold(0x3D, GetSystemDataBytes[3..], AaPoly) == Fold(0x88, GetSystemDataBytes[6..], AaPoly)
  {
    var m0 := GetSystemDataBytes[3..];
    var m1 := m0[1..]; FoldStep(0x3D, m0, 0x53, AaPoly, 0xD6);
    var m2 := m1[1..]; FoldStep(0xD6, m1, 0x79, AaPoly, 0x03);
    var m3 := m2[1..]; FoldStep(0x03, m2, 0x73, AaPoly, 0x88);
    assert m3 == GetSystemDataBytes[6..];
  }

  /** Bytes 6 to 8 of "getSystemData". */
  lemma GetSystemDataFrom6()
    ensures Fold(0x88, GetSystemDataBytes[6..], AaPoly) == Fold(0xEB, GetSystemDataBytes[9..], AaPoly)
  {
    var m0 := GetSystemDataBytes[6..];
    var m1 := m0[1..]; FoldStep(0x88, m0, 0x74, AaPoly, 0x57);
    var m2 := m1[1..]; FoldStep(0x57, m1, 0x65, AaPoly, 0xAD);
    var m3 := m2[1..]; FoldStep(0xAD, m2, 0x6D, AaPoly, 0xEB);
    assert m3 == GetSystemDataBytes[9..];
  }

  /** Bytes 9 to 11 of "getSystemData". */
  lemma GetSystemDataFrom9()
    ensures Fold(0xEB, GetSystemDataBytes[9..], AaPoly) == Fold(0xC4, GetSystemDataBytes[12..], AaPoly)
  {
    var m0 := GetSystemDataBytes[9..];
    var m1 := m0[1..]; FoldStep(0xEB, m0, 0x44, AaPoly, 0x03);
    var m2 := m1[1..]; FoldStep(0x03, m1, 0x61, AaPoly, 0xBB);
    var m3 := m2[1..]; FoldStep(0xBB, m2, 0x74, AaPoly, 0xC4);
    assert m3 == GetSystemDataBytes[12..];
  }

  /** Bytes 12 to 12 of "getSystemData". */
  lemma GetSystemDataFrom12()
    ensures Fold(0xC4, GetSystemDataBytes[12..], AaPoly) == Fold(0xEA, GetSystemDataBytes[13..], AaPoly)
  {
    var m0 := GetSystemDataBytes[12..];
    var m1 := m0[1..]; FoldStep(0xC4, m0, 0x61, AaPoly, 0xEA);
    assert m1 == GetSystemDataBytes[13..];
  }

  lemma GetSystemDataVector()
    ensures Crc8(GetSystemDataBytes, AaPoly, AaFinalXor) == 0x15
  {
    GetSystemDataFrom0(); GetSystemDataFrom3(); GetSystemDataFrom6(); GetSystemDataFrom9(); GetSystemDataFrom12();
    assert GetSystemDataBytes[13..] == [];
  }

  /** Bytes 0 to 2 of "CAN2 in use". */
  lemma CanInUseFrom0()
    ensures Fold(0x00, CanInUseBytes, AaPoly) == Fold(0x5D, CanInUseBytes[3..], AaPoly)
  {
    var m0 := CanInUseBytes;
    var m1 := m0[1..]; FoldStep(0x00, m0, 0x43, AaPoly, 0x1B);
    var m2 := m1[1..]; FoldStep(0x1B, m1, 0x41, AaPoly, 0xFF);
    var m3 := m2[1..]; FoldStep(0xFF, m2, 0x4E, AaPoly, 0x5D);
    assert m3 == CanInUseBytes[3..];
  }

  /** Bytes 3 to 5 of "CAN2 in use". */
  lemma CanInUseFrom3()
    ensures Fold(0x5D, CanInUseBytes[3..], AaPoly) == Fold(0xF5, CanInUseBytes[6..], AaPoly)
  {
    var m0 := CanInUseBytes[3..];
    var m1 := m0[1..]; FoldStep(0x5D, m0, 0x32, AaPoly, 0xE8);
    var m2 := m1[1..]; FoldStep(0xE8, m1, 0x20, AaPoly, 0x7E);
    var m3 := m2[1..]; FoldStep(0x7E, m2, 0x69, AaPoly, 0xF5);
    assert m3 == CanInUseBytes[6..];
  }

  /** Bytes 6 to 8 of "CAN2 in use". */
  lemma CanInUseFrom6()
    ensures Fold(0xF5, CanInUseBytes[6..], AaPoly) == Fold(0x90, CanInUseBytes[9..], AaPoly)
  {
    var m0 := CanInUseBytes[6..];
    var m1 := m0[1..]; FoldStep(0xF5, m0, 0x6E, AaPoly, 0x2A);
    var m2 := m1[1..]; FoldStep(0x2A, m1, 0x20, AaPoly, 0xE9);
    var m3 := m2[1..]; FoldStep(0xE9, m2, 0x75, AaPoly, 0x90);
    assert m3 == CanInUseBytes[9..];
  }

  /** Bytes 9 to 10 of "CAN2 in use". */
  lemma CanInUseFrom9()
    ensures Fold(0x90, CanInUseBytes[9..], AaPoly) == Fold(0x6A, CanInUseBytes[11..], AaPoly)
  {
    var m0 := CanInUseBytes[9..];
    var m1 := m0[1..]; FoldStep(0x90, m0, 0x73, AaPoly, 0x37);
    var m2 := m1[1..]; FoldStep(0x37, m1, 0x65, AaPoly, 0x6A);
    assert m2 == CanInUseBytes[11..];
  }

  lemma CanInUseVector()
    ensures Crc8(CanInUseBytes, AaPoly, AaFinalXor) == 0x95
  {
    CanInUseFrom0(); CanInUseFrom3(); CanInUseFrom6(); CanInUseFrom9();
    assert CanInUseBytes[11..] == [];
  }

  /** main's five messages and their recorded CRC bytes. */
  const KnownMessages: seq<seq<bv8>> := [PingBytes, AckOneBytes, SetCanBytes, GetSystemDataBytes, CanInUseBytes]
  const KnownCrcs: seq<bv8> := [0xDB, 0xAA, 0xB2, 0x15, 0x95]

  /** Eight inner-loop iterations written out. */
  lemma ByteStepExpanded(crc: bv8, b: bv8, poly: bv8)
    ensures ByteStep(crc, b, poly) ==
      ShiftOnce(ShiftOnce(ShiftOnce(ShiftOnce(ShiftOnce(ShiftOnce(ShiftOnce(ShiftOnce(crc ^ b, poly), poly), poly), poly), poly), poly), poly), poly)
  {
    var x := crc ^ b;
    assert Shifts(x, poly, 1) == ShiftOnce(x, poly);
    assert Shifts(x, poly, 2) == ShiftOnce(Shifts(x, poly, 1), poly);
    assert Shifts(x, poly, 3) == ShiftOnce(Shifts(x, poly, 2), poly);
    assert Shifts(x, poly, 4) == ShiftOnce(Shifts(x, poly, 3), poly);
    assert Shifts(x, poly, 5) == ShiftOnce(Shifts(x, poly, 4), poly);
    assert Shifts(x, poly, 6) == ShiftOnce(Shifts(x, poly, 5), poly);
    assert Shifts(x, poly, 7) == ShiftOnce(Shifts(x, poly, 6), poly);
  }

  /** One byte of a concrete trace: consuming `b` moves the register from
      `crc` to `next`. */
  lemma FoldStep(crc: bv8, data: seq<bv8>, b: bv8, poly: bv8, next: bv8)
    requires data != [] && data[0] == b
    requires next ==
      ShiftOnce(ShiftOnce(ShiftOnce(ShiftOnce(ShiftOnce(ShiftOnce(ShiftOnce(ShiftOnce(crc ^ b, poly), poly), poly), poly), poly), poly), poly), poly)
    ensures Fold(crc, data, poly) == Fold(next, data[1..], poly)
  {
    ByteStepExpanded(crc, b, poly);
  }

  /** FitsAll for five messages, one value at a time. */
  lemma FitsAllOfFive(m0: seq<bv8>, m1: seq<bv8>, m2: seq<bv8>, m3: seq<bv8>, m4: seq<bv8>,
                      e0: bv8, e1: bv8, e2: bv8, e3: bv8, e4: bv8, poly: bv8, finalXor: bv8)
    requires Crc8(m0, poly, finalXor) == e0 && Crc8(m1, poly, finalXor) == e1
    requires Crc8(m2, poly, finalXor) == e2 && Crc8(m3, poly, finalXor) == e3
    requires Crc8(m4, poly, finalXor) == e4
    ensures FitsAll([m0, m1, m2, m3, m4], [e0, e1, e2, e3, e4], poly, finalXor)
  {
  }

  /** (0xB2, 0xFF), the parameters of AACRC8, reproduce all five recorded values. */
  lemma AaParametersFit()
    ensures IsCandidate(AaPoly, AaFinalXor)
    ensures FitsAll(KnownMessages, KnownCrcs, AaPoly, AaFinalXor)
  {
    PingVector();
    AckOneVector();
    SetCanVector();
    GetSystemDataVector();
    CanInUseVector();
    FitsAllOfFive(PingBytes, AckOneBytes, SetCanBytes, GetSystemDataBytes, CanInUseBytes,
                  0xDB, 0xAA, 0xB2, 0x15, 0x95, AaPoly, AaFinalXor);
  }

  /** No candidate before (0xB2, 0xFF) even reproduces the "Ping" value. */
  lemma PingRejectsEarlier(p: bv8, x: bv8)
    requires IsCandidate(p, x) && Before(p, x, AaPoly, AaFinalXor)
    ensures Crc8(PingBytes, p, x) != 0xDB
  {
    var r0 := ByteStep(0x00, 0x50, p);
    var r1 := ByteStep(r0, 0x69, p);
    var r2 := ByteStep(r1, 0x6E, p);
    ByteStepExpanded(0x00, 0x50, p);
    ByteStepExpanded(r0, 0x69, p);
    ByteStepExpanded(r1, 0x6E, p);
    ByteStepExpanded(r2, 0x67, p);
    var m0 := PingBytes;
    var m1 := m0[1..]; FoldStep(0x00, m0, 0x50, p, r0);
    var m2 := m1[1..]; FoldStep(r0, m1, 0x69, p, r1);
    var m3 := m2[1..]; FoldStep(r1, m2, 0x6E, p, r2);
    var m4 := m3[1..]; FoldStep(r2, m3, 0x67, p, ByteStep(r2, 0x67, p));
    assert m4 == [];
  }

  /** findpolynomial.c's main: run the search over the five recorded vectors;
      exit status 0 when a pair is found, -1 otherwise. The search finds
      exactly the parameters of AACRC8. */
  method FindPolynomial() returns (status: int, found: Option<(bv8, bv8)>)
    ensures found == Some((AaPoly, AaFinalXor))
    ensures status == (if found.Some? then 0 else -1)
  {
    found := SearchPolynomial(KnownMessages, KnownCrcs);
    status := if found.Some? then 0 else -1;
    AaParametersFit();
    if found.Some? {
      var (q, y) := found.value;
      if Before(q, y, AaPoly, AaFinalXor) {
        assert KnownMessages[0] == PingBytes && KnownCrcs[0] == 0xDB;
        PingRejectsEarlier(q, y);
        assert false;
      } else if Before(AaPoly, AaFinalXor, q, y) {
        assert false;
      }
    } else {
      assert false;
    }
  }
}
