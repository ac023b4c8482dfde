/** The feedback table of tools/crc32.c and the proof that every entry is the result of
    eight shift/xor steps. The table is a function of the index byte; each row holds the
    sixteen entries that share their index's high half. */
module Crc32Table {
  /** The generator, coefficients reversed: bit 31 is x^0 and x^32 is implied. */
  const POLY: bv32 := 0xedb88320

  // The operators of the register, named so that proofs can hide them.

  function Xor(a: bv32, b: bv32): bv32 {
    a ^ b
  }

  function Shr(r: bv32): bv32 {
    r >> 1
  }

  function Low(r: bv32): bool {
    r & 1 == 1
  }

  /** One shift/xor step of the register: shift right, and subtract the generator when
      the bit that falls out (the x^31 term) is 1. */
  function Step(r: bv32): bv32 {
    Xor(Shr(r), if Low(r) then POLY else 0)
  }

  function Step8(r: bv32): bv32 {
    Step(Step(Step(Step(Step(Step(Step(Step(r))))))))
  }

  /** Step without the branch, the form the solver evaluates the table with. */
  function Masked(r: bv32): bv32 {
    (r >> 1) ^ (POLY & (0 - (r & 1)))
  }

  function Masked8(r: bv32): bv32 {
    Masked(Masked(Masked(Masked(Masked(Masked(Masked(Masked(r))))))))
  }

  lemma MaskedIsStep(r: bv32)
    ensures Masked(r) == Step(r)
  {
    assert r & 1 == 1 || r & 1 == 0;
  }

  lemma Masked8IsStep8(r: bv32)
    ensures Masked8(r) == Step8(r)
  {
    var r1 := Step(r);
    var r2 := Step(r1);
    var r3 := Step(r2);
    var r4 := Step(r3);
    var r5 := Step(r4);
    var r6 := Step(r5);
    var r7 := Step(r6);
    MaskedIsStep(r); MaskedIsStep(r1); MaskedIsStep(r2); MaskedIsStep(r3);
    MaskedIsStep(r4); MaskedIsStep(r5); MaskedIsStep(r6); MaskedIsStep(r7);
  }

  /** crc32_tab[i] */
  function Crc32Tab(i: bv8): bv32 {
    match i >> 4
    case 0x0 => Row0(i & 0xf)
    case 0x1 => Row1(i & 0xf)
    case 0x2 => Row2(i & 0xf)
    case 0x3 => Row3(i & 0xf)
    case 0x4 => Row4(i & 0xf)
    case 0x5 => Row5(i & 0xf)
    case 0x6 => Row6(i & 0xf)
    case 0x7 => Row7(i & 0xf)
    case 0x8 => Row8(i & 0xf)
    case 0x9 => Row9(i & 0xf)
    case 0xa => RowA(i & 0xf)
    case 0xb => RowB(i & 0xf)
    case 0xc => RowC(i & 0xf)
    case 0xd => RowD(i & 0xf)
    case 0xe => RowE(i & 0xf)
    case _ => RowF(i & 0xf)
  }

  function Row0(j: bv8): bv32 {
    match j
    case 0x0 => 0x00000000 case 0x1 => 0x77073096 case 0x2 => 0xee0e612c
    case 0x3 => 0x990951ba case 0x4 => 0x076dc419 case 0x5 => 0x706af48f
    case 0x6 => 0xe963a535 case 0x7 => 0x9e6495a3 case 0x8 => 0x0edb8832
    case 0x9 => 0x79dcb8a4 case 0xa => 0xe0d5e91e case 0xb => 0x97d2d988
    case 0xc => 0x09b64c2b case 0xd => 0x7eb17cbd case 0xe => 0xe7b82d07
    case _ => 0x90bf1d91
  }

  function Row1(j: bv8): bv32 {
    match j
    case 0x0 => 0x1db71064 case 0x1 => 0x6ab020f2 case 0x2 => 0xf3b97148
    case 0x3 => 0x84be41de case 0x4 => 0x1adad47d case 0x5 => 0x6ddde4eb
    case 0x6 => 0xf4d4b551 case 0x7 => 0x83d385c7 case 0x8 => 0x136c9856
    case 0x9 => 0x646ba8c0 case 0xa => 0xfd62f97a case 0xb => 0x8a65c9ec
    case 0xc => 0x14015c4f case 0xd => 0x63066cd9 case 0xe => 0xfa0f3d63
    case _ => 0x8d080df5
  }

  function Row2(j: bv8): bv32 {
    match j
    case 0x0 => 0x3b6e20c8 case 0x1 => 0x4c69105e case 0x2 => 0xd56041e4
    case 0x3 => 0xa2677172 case 0x4 => 0x3c03e4d1 case 0x5 => 0x4b04d447
    case 0x6 => 0xd20d85fd case 0x7 => 0xa50ab56b case 0x8 => 0x35b5a8fa
    case 0x9 => 0x42b2986c case 0xa => 0xdbbbc9d6 case 0xb => 0xacbcf940
    case 0xc => 0x32d86ce3 case 0xd => 0x45df5c75 case 0xe => 0xdcd60dcf
    case _ => 0xabd13d59
  }

  function Row3(j: bv8): bv32 {
    match j
    case 0x0 => 0x26d930ac case 0x1 => 0x51de003a case 0x2 => 0xc8d75180
    case 0x3 => 0xbfd06116 case 0x4 => 0x21b4f4b5 case 0x5 => 0x56b3c423
    case 0x6 => 0xcfba9599 case 0x7 => 0xb8bda50f case 0x8 => 0x2802b89e
    case 0x9 => 0x5f058808 case 0xa => 0xc60cd9b2 case 0xb => 0xb10be924
    case 0xc => 0x2f6f7c87 case 0xd => 0x58684c11 case 0xe => 0xc1611dab
    case _ => 0xb6662d3d
  }

  function Row4(j: bv8): bv32 {
    match j
    case 0x0 => 0x76dc4190 case 0x1 => 0x01db7106 case 0x2 => 0x98d220bc
    case 0x3 => 0xefd5102a case 0x4 => 0x71b18589 case 0x5 => 0x06b6b51f
    case 0x6 => 0x9fbfe4a5 case 0x7 => 0xe8b8d433 case 0x8 => 0x7807c9a2
    case 0x9 => 0x0f00f934 case 0xa => 0x9609a88e case 0xb => 0xe10e9818
    case 0xc => 0x7f6a0dbb case 0xd => 0x086d3d2d case 0xe => 0x91646c97
    case _ => 0xe6635c01
  }

  function Row5(j: bv8): bv32 {
    match j
    case 0x0 => 0x6b6b51f4 case 0x1 => 0x1c6c6162 case 0x2 => 0x856530d8
    case 0x3 => 0xf262004e case 0x4 => 0x6c0695ed case 0x5 => 0x1b01a57b
    case 0x6 => 0x8208f4c1 case 0x7 => 0xf50fc457 case 0x8 => 0x65b0d9c6
    case 0x9 => 0x12b7e950 case 0xa => 0x8bbeb8ea case 0xb => 0xfcb9887c
    case 0xc => 0x62dd1ddf case 0xd => 0x15da2d49 case 0xe => 0x8cd37cf3
    case _ => 0xfbd44c65
  }

  function Row6(j: bv8): bv32 {
    match j
    case 0x0 => 0x4db26158 case 0x1 => 0x3ab551ce case 0x2 => 0xa3bc0074
    case 0x3 => 0xd4bb30e2 case 0x4 => 0x4adfa541 case 0x5 => 0x3dd895d7
    case 0x6 => 0xa4d1c46d case 0x7 => 0xd3d6f4fb case 0x8 => 0x4369e96a
    case 0x9 => 0x346ed9fc case 0xa => 0xad678846 case 0xb => 0xda60b8d0
    case 0xc => 0x44042d73 case 0xd => 0x33031de5 case 0xe => 0xaa0a4c5f
    case _ => 0xdd0d7cc9
  }

  function Row7(j: bv8): bv32 {
    match j
    case 0x0 => 0x5005713c case 0x1 => 0x270241aa case 0x2 => 0xbe0b1010
    case 0x3 => 0xc90c2086 case 0x4 => 0x5768b525 case 0x5 => 0x206f85b3
    case 0x6 => 0xb966d409 case 0x7 => 0xce61e49f case 0x8 => 0x5edef90e
    case 0x9 => 0x29d9c998 case 0xa => 0xb0d09822 case 0xb => 0xc7d7a8b4
    case 0xc => 0x59b33d17 case 0xd => 0x2eb40d81 case 0xe => 0xb7bd5c3b
    case _ => 0xc0ba6cad
  }

  function Row8(j: bv8): bv32 {
    match j
    case 0x0 => 0xedb88320 case 0x1 => 0x9abfb3b6 case 0x2 => 0x03b6e20c
    case 0x3 => 0x74b1d29a case 0x4 => 0xead54739 case 0x5 => 0x9dd277af
    case 0x6 => 0x04db2615 case 0x7 => 0x73dc1683 case 0x8 => 0xe3630b12
    case 0x9 => 0x94643b84 case 0xa => 0x0d6d6a3e case 0xb => 0x7a6a5aa8
    case 0xc => 0xe40ecf0b case 0xd => 0x9309ff9d case 0xe => 0x0a00ae27
    case _ => 0x7d079eb1
  }

  function Row9(j: bv8): bv32 {
    match j
    case 0x0 => 0xf00f9344 case 0x1 => 0x8708a3d2 case 0x2 => 0x1e01f268
    case 0x3 => 0x6906c2fe case 0x4 => 0xf762575d case 0x5 => 0x806567cb
    case 0x6 => 0x196c3671 case 0x7 => 0x6e6b06e7 case 0x8 => 0xfed41b76
    case 0x9 => 0x89d32be0 case 0xa => 0x10da7a5a case 0xb => 0x67dd4acc
    case 0xc => 0xf9b9df6f case 0xd => 0x8ebeeff9 case 0xe => 0x17b7be43
    case _ => 0x60b08ed5
  }

  function RowA(j: bv8): bv32 {
    match j
    case 0x0 => 0xd6d6a3e8 case 0x1 => 0xa1d1937e case 0x2 => 0x38d8c2c4
    case 0x3 => 0x4fdff252 case 0x4 => 0xd1bb67f1 case 0x5 => 0xa6bc5767
    case 0x6 => 0x3fb506dd case 0x7 => 0x48b2364b case 0x8 => 0xd80d2bda
    case 0x9 => 0xaf0a1b4c case 0xa => 0x36034af6 case 0xb => 0x41047a60
    case 0xc => 0xdf60efc3 case 0xd => 0xa867df55 case 0xe => 0x316e8eef
    case _ => 0x4669be79
  }

  function RowB(j: bv8): bv32 {
    match j
    case 0x0 => 0xcb61b38c case 0x1 => 0xbc66831a case 0x2 => 0x256fd2a0
    case 0x3 => 0x5268e236 case 0x4 => 0xcc0c7795 case 0x5 => 0xbb0b4703
    case 0x6 => 0x220216b9 case 0x7 => 0x5505262f case 0x8 => 0xc5ba3bbe
    case 0x9 => 0xb2bd0b28 case 0xa => 0x2bb45a92 case 0xb => 0x5cb36a04
    case 0xc => 0xc2d7ffa7 case 0xd => 0xb5d0cf31 case 0xe => 0x2cd99e8b
    case _ => 0x5bdeae1d
  }

  function RowC(j: bv8): bv32 {
    match j
    case 0x0 => 0x9b64c2b0 case 0x1 => 0xec63f226 case 0x2 => 0x756aa39c
    case 0x3 => 0x026d930a case 0x4 => 0x9c0906a9 case 0x5 => 0xeb0e363f
    case 0x6 => 0x72076785 case 0x7 => 0x05005713 case 0x8 => 0x95bf4a82
    case 0x9 => 0xe2b87a14 case 0xa => 0x7bb12bae case 0xb => 0x0cb61b38
    case 0xc => 0x92d28e9b case 0xd => 0xe5d5be0d case 0xe => 0x7cdcefb7
    case _ => 0x0bdbdf21
  }

  function RowD(j: bv8): bv32 {
    match j
    case 0x0 => 0x86d3d2d4 case 0x1 => 0xf1d4e242 case 0x2 => 0x68ddb3f8
    case 0x3 => 0x1fda836e case 0x4 => 0x81be16cd case 0x5 => 0xf6b9265b
    case 0x6 => 0x6fb077e1 case 0x7 => 0x18b74777 case 0x8 => 0x88085ae6
    case 0x9 => 0xff0f6a70 case 0xa => 0x66063bca case 0xb => 0x11010b5c
    case 0xc => 0x8f659eff case 0xd => 0xf862ae69 case 0xe => 0x616bffd3
    case _ => 0x166ccf45
  }

  function RowE(j: bv8): bv32 {
    match j
    case 0x0 => 0xa00ae278 case 0x1 => 0xd70dd2ee case 0x2 => 0x4e048354
    case 0x3 => 0x3903b3c2 case 0x4 => 0xa7672661 case 0x5 => 0xd06016f7
    case 0x6 => 0x4969474d case 0x7 => 0x3e6e77db case 0x8 => 0xaed16a4a
    case 0x9 => 0xd9d65adc case 0xa => 0x40df0b66 case 0xb => 0x37d83bf0
    case 0xc => 0xa9bcae53 case 0xd => 0xdebb9ec5 case 0xe => 0x47b2cf7f
    case _ => 0x30b5ffe9
  }

  function RowF(j: bv8): bv32 {
    match j
    case 0x0 => 0xbdbdf21c case 0x1 => 0xcabac28a case 0x2 => 0x53b39330
    case 0x3 => 0x24b4a3a6 case 0x4 => 0xbad03605 case 0x5 => 0xcdd70693
    case 0x6 => 0x54de5729 case 0x7 => 0x23d967bf case 0x8 => 0xb3667a2e
    case 0x9 => 0xc4614ab8 case 0xa => 0x5d681b02 case 0xb => 0x2a6f2b94
    case 0xc => 0xb40bbe37 case 0xd => 0xc30c8ea1 case 0xe => 0x5a05df1b
    case _ => 0x2d02ef8d
  }

  lemma Row0Ok(i: bv8)
    requires i >> 4 == 0x0
    ensures Crc32Tab(i) == Masked8(i as bv32)
  {
    match i & 0xf
    case 0x0 => case 0x1 => case 0x2 => case 0x3 => case 0x4 =>
    case 0x5 => case 0x6 => case 0x7 => case 0x8 => case 0x9 =>
    case 0xa => case 0xb => case 0xc => case 0xd => case 0xe =>
    case _ =>
  }

  lemma Row1Ok(i: bv8)
    requires i >> 4 == 0x1
    ensures Crc32Tab(i) == Masked8(i as bv32)
  {
    match i & 0xf
    case 0x0 => case 0x1 => case 0x2 => case 0x3 => case 0x4 =>
    case 0x5 => case 0x6 => case 0x7 => case 0x8 => case 0x9 =>
    case 0xa => case 0xb => case 0xc => case 0xd => case 0xe =>
    case _ =>
  }

  lemma Row2Ok(i: bv8)
    requires i >> 4 == 0x2
    ensures Crc32Tab(i) == Masked8(i as bv32)
  {
    match i & 0xf
    case 0x0 => case 0x1 => case 0x2 => case 0x3 => case 0x4 =>
    case 0x5 => case 0x6 => case 0x7 => case 0x8 => case 0x9 =>
    case 0xa => case 0xb => case 0xc => case 0xd => case 0xe =>
    case _ =>
  }

  lemma Row3Ok(i: bv8)
    requires i >> 4 == 0x3
    ensures Crc32Tab(i) == Masked8(i as bv32)
  {
    match i & 0xf
    case 0x0 => case 0x1 => case 0x2 => case 0x3 => case 0x4 =>
    case 0x5 => case 0x6 => case 0x7 => case 0x8 => case 0x9 =>
    case 0xa => case 0xb => case 0xc => case 0xd => case 0xe =>
    case _ =>
  }

  lemma Row4Ok(i: bv8)
    requires i >> 4 == 0x4
    ensures Crc32Tab(i) == Masked8(i as bv32)
  {
    match i & 0xf
    case 0x0 => case 0x1 => case 0x2 => case 0x3 => case 0x4 =>
    case 0x5 => case 0x6 => case 0x7 => case 0x8 => case 0x9 =>
    case 0xa => case 0xb => case 0xc => case 0xd => case 0xe =>
    case _ =>
  }

  lemma Row5Ok(i: bv8)
    requires i >> 4 == 0x5
    ensures Crc32Tab(i) == Masked8(i as bv32)
  {
    match i & 0xf
    case 0x0 => case 0x1 => case 0x2 => case 0x3 => case 0x4 =>
    case 0x5 => case 0x6 => case 0x7 => case 0x8 => case 0x9 =>
    case 0xa => case 0xb => case 0xc => case 0xd => case 0xe =>
    case _ =>
  }

  lemma Row6Ok(i: bv8)
    requires i >> 4 == 0x6
    ensures Crc32Tab(i) == Masked8(i as bv32)
  {
    match i & 0xf
    case 0x0 => case 0x1 => case 0x2 => case 0x3 => case 0x4 =>
    case 0x5 => case 0x6 => case 0x7 => case 0x8 => case 0x9 =>
    case 0xa => case 0xb => case 0xc => case 0xd => case 0xe =>
    case _ =>
  }

  lemma Row7Ok(i: bv8)
    requires i >> 4 == 0x7
    ensures Crc32Tab(i) == Masked8(i as bv32)
  {
    match i & 0xf
    case 0x0 => case 0x1 => case 0x2 => case 0x3 => case 0x4 =>
    case 0x5 => case 0x6 => case 0x7 => case 0x8 => case 0x9 =>
    case 0xa => case 0xb => case 0xc => case 0xd => case 0xe =>
    case _ =>
  }

  lemma Row8Ok(i: bv8)
    requires i >> 4 == 0x8
    ensures Crc32Tab(i) == Masked8(i as bv32)
  {
    match i & 0xf
    case 0x0 => case 0x1 => case 0x2 => case 0x3 => case 0x4 =>
    case 0x5 => case 0x6 => case 0x7 => case 0x8 => case 0x9 =>
    case 0xa => case 0xb => case 0xc => case 0xd => case 0xe =>
    case _ =>
  }

  lemma Row9Ok(i: bv8)
    requires i >> 4 == 0x9
    ensures Crc32Tab(i) == Masked8(i as bv32)
  {
    match i & 0xf
    case 0x0 => case 0x1 => case 0x2 => case 0x3 => case 0x4 =>
    case 0x5 => case 0x6 => case 0x7 => case 0x8 => case 0x9 =>
    case 0xa => case 0xb => case 0xc => case 0xd => case 0xe =>
    case _ =>
  }

  lemma RowAOk(i: bv8)
    requires i >> 4 == 0xa
    ensures Crc32Tab(i) == Masked8(i as bv32)
  {
    match i & 0xf
    case 0x0 => case 0x1 => case 0x2 => case 0x3 => case 0x4 =>
    case 0x5 => case 0x6 => case 0x7 => case 0x8 => case 0x9 =>
    case 0xa => case 0xb => case 0xc => case 0xd => case 0xe =>
    case _ =>
  }

  lemma RowBOk(i: bv8)
    requires i >> 4 == 0xb
    ensures Crc32Tab(i) == Masked8(i as bv32)
  {
    match i & 0xf
    case 0x0 => case 0x1 => case 0x2 => case 0x3 => case 0x4 =>
    case 0x5 => case 0x6 => case 0x7 => case 0x8 => case 0x9 =>
    case 0xa => case 0xb => case 0xc => case 0xd => case 0xe =>
    case _ =>
  }

  lemma RowCOk(i: bv8)
    requires i >> 4 == 0xc
    ensures Crc32Tab(i) == Masked8(i as bv32)
  {
    match i & 0xf
    case 0x0 => case 0x1 => case 0x2 => case 0x3 => case 0x4 =>
    case 0x5 => case 0x6 => case 0x7 => case 0x8 => case 0x9 =>
    case 0xa => case 0xb => case 0xc => case 0xd => case 0xe =>
    case _ =>
  }

  lemma RowDOk(i: bv8)
    requires i >> 4 == 0xd
    ensures Crc32Tab(i) == Masked8(i as bv32)
  {
    match i & 0xf
    case 0x0 => case 0x1 => case 0x2 => case 0x3 => case 0x4 =>
    case 0x5 => case 0x6 => case 0x7 => case 0x8 => case 0x9 =>
    case 0xa => case 0xb => case 0xc => case 0xd => case 0xe =>
    case _ =>
  }

  lemma RowEOk(i: bv8)
    requires i >> 4 == 0xe
    ensures Crc32Tab(i) == Masked8(i as bv32)
  {
    match i & 0xf
    case 0x0 => case 0x1 => case 0x2 => case 0x3 => case 0x4 =>
    case 0x5 => case 0x6 => case 0x7 => case 0x8 => case 0x9 =>
    case 0xa => case 0xb => case 0xc => case 0xd => case 0xe =>
    case _ =>
  }

  lemma RowFOk(i: bv8)
    requires i >> 4 == 0xf
    ensures Crc32Tab(i) == Masked8(i as bv32)
  {
    match i & 0xf
    case 0x0 => case 0x1 => case 0x2 => case 0x3 => case 0x4 =>
    case 0x5 => case 0x6 => case 0x7 => case 0x8 => case 0x9 =>
    case 0xa => case 0xb => case 0xc => case 0xd => case 0xe =>
    case _ =>
  }

  /** crc32_tab is what the comment of the source says it is, for all 256 entries. */
  lemma {:induction false} TableIsEightSteps(i: bv8)
    ensures Crc32Tab(i) == Step8(i as bv32)
  {
    Masked8IsStep8(i as bv32);
    match i >> 4
    case 0x0 => Row0Ok(i);
    case 0x1 => Row1Ok(i);
    case 0x2 => Row2Ok(i);
    case 0x3 => Row3Ok(i);
    case 0x4 => Row4Ok(i);
    case 0x5 => Row5Ok(i);
    case 0x6 => Row6Ok(i);
    case 0x7 => Row7Ok(i);
    case 0x8 => Row8Ok(i);
    case 0x9 => Row9Ok(i);
    case 0xa => RowAOk(i);
    case 0xb => RowBOk(i);
    case 0xc => RowCOk(i);
    case 0xd => RowDOk(i);
    case 0xe => RowEOk(i);
    case _ => RowFOk(i);
  }
}
