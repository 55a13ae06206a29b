/** Two published values of SipHash-2-4, step by step: the hash of the empty message, first of
    the vectors of siphash.c, and that of fifteen bytes, the example of appendix A of Aumasson and
    Bernstein, "SipHash: a fast short-input PRF". The key is 0, 1, .., 15 in both. */
module SipVectors {
  import opened EightBlocks
  import opened SipHash

  const KEY: Octets := [0, 1, 2, 3, 4, 5, 6, 7, 8, 9, 10, 11, 12, 13, 14, 15]
  const FIFTEEN: Octets := [0, 1, 2, 3, 4, 5, 6, 7, 8, 9, 10, 11, 12, 13, 14]

  lemma TwoRounds(l: Lanes)
    ensures Rounds(2, l) == SipRound(SipRound(l))
  {
    assert Rounds(1, SipRound(l)) == Rounds(0, SipRound(SipRound(l)));
  }

  lemma FourRounds(l: Lanes)
    ensures Rounds(4, l) == SipRound(SipRound(SipRound(SipRound(l))))
  {
    assert Rounds(4, l) == Rounds(3, SipRound(l)) == Rounds(2, SipRound(SipRound(l)));
    TwoRounds(SipRound(SipRound(l)));
  }

  // -------------------------------------------------------------------- rounds

  lemma Empty1()
    ensures SipRound(Lanes(0x7469686173716475, 0x6b617f6d656e6665, 0x6b7f62616d677361, 0x7b6b696e727e6c7b))
         == Lanes(0x6864848c93698c85, 0x41d43f143c94a7dc, 0xf3f94792d7121732, 0x5e52f75805987c12)
  {
    assert Mix(0x7469686173716475, 0x6b617f6d656e6665, 13) == (0xdfcae7ced8dfcada, 0xf0274b63141367b6);
    assert Mix(0x6b7f62616d677361, 0x7b6b696e727e6c7b, 16) == (0xe6eacbcfdfe5dfdc, 0x8f84b9b1b39ea4b7);
    assert Mix(0xd8dfcadadfcae7ce, 0x8f84b9b1b39ea4b7, 21) == (0x6864848c93698c85, 0x5e52f75805987c12);
    assert Mix(0xe6eacbcfdfe5dfdc, 0xf0274b63141367b6, 17) == (0xd7121732f3f94792, 0x41d43f143c94a7dc);
    assert Rotl(0xdfcae7ced8dfcada, 32) == 0xd8dfcadadfcae7ce && Rotl(0xd7121732f3f94792, 32) == 0xf3f94792d7121732;
  }

  lemma Empty2()
    ensures SipRound(Lanes(0x6864848c93698c85, 0x41d43f143c94a7dc, 0xf3f94792d7121732, 0x5e52f75805987c12))
         == Lanes(0x75126fd44af190b6, 0x84235164f06142b, 0x37b04f9f8026831d, 0x1b4678cde8253231)
  {
    assert Mix(0x6864848c93698c85, 0x41d43f143c94a7dc, 13) == (0xaa38c3a0cffe3461, 0x2dda44325b05bc5b);
    assert Mix(0xf3f94792d7121732, 0x5e52f75805987c12, 16) == (0x524c3eeadcaa9344, 0xa5143b72a0b8cd16);
    assert Mix(0xcffe3461aa38c3a0, 0xa5143b72a0b8cd16, 21) == (0x75126fd44af190b6, 0x1b4678cde8253231);
    assert Mix(0x524c3eeadcaa9344, 0x2dda44325b05bc5b, 17) == (0x8026831d37b04f9f, 0x84235164f06142b);
    assert Rotl(0xaa38c3a0cffe3461, 32) == 0xcffe3461aa38c3a0 && Rotl(0x8026831d37b04f9f, 32) == 0x37b04f9f8026831d;
  }

  lemma Empty3()
    ensures SipRound(Lanes(0x75126fd44af190b6, 0x84235164f06142b, 0x37b04f9f802683e2, 0x1b4678cde8253231))
         == Lanes(0xc432c529d7cf523f, 0x54f98392486c0c10, 0xc3be7bfc8eed3577, 0xcd398a7c7d6a155b)
  {
    assert Mix(0x75126fd44af190b6, 0x84235164f06142b, 13) == (0x7d54a4ea99f7a4e1, 0x3bf66d0a5b72c5e9);
    assert Mix(0x37b04f9f802683e2, 0x1b4678cde8253231, 16) == (0x52f6c86d684bb613, 0x2a3b20485a7aad55);
    assert Mix(0x99f7a4e17d54a4ea, 0x2a3b20485a7aad55, 21) == (0xc432c529d7cf523f, 0xcd398a7c7d6a155b);
    assert Mix(0x52f6c86d684bb613, 0x3bf66d0a5b72c5e9, 17) == (0x8eed3577c3be7bfc, 0x54f98392486c0c10);
    assert Rotl(0x7d54a4ea99f7a4e1, 32) == 0x99f7a4e17d54a4ea && Rotl(0x8eed3577c3be7bfc, 32) == 0xc3be7bfc8eed3577;
  }

  lemma Empty4()
    ensures SipRound(Lanes(0xc432c529d7cf523f, 0x54f98392486c0c10, 0xc3be7bfc8eed3577, 0xcd398a7c7d6a155b))
         == Lanes(0x3abfd9623238d0a7, 0xb9354b5807b0cd1e, 0xae109fa2ba56082a, 0x58dcf8f2cf5b8028)
  {
    assert Mix(0xc432c529d7cf523f, 0x54f98392486c0c10, 13) == (0x192c48bc203b5e4f, 0x295e01b1a1b954d0);
    assert Mix(0xc3be7bfc8eed3577, 0xcd398a7c7d6a155b, 16) == (0x90f806790c574ad2, 0x1a847b13190c87eb);
    assert Mix(0x203b5e4f192c48bc, 0x1a847b13190c87eb, 21) == (0x3abfd9623238d0a7, 0x58dcf8f2cf5b8028);
    assert Mix(0x90f806790c574ad2, 0x295e01b1a1b954d0, 17) == (0xba56082aae109fa2, 0xb9354b5807b0cd1e);
    assert Rotl(0x192c48bc203b5e4f, 32) == 0x203b5e4f192c48bc && Rotl(0xba56082aae109fa2, 32) == 0xae109fa2ba56082a;
  }

  lemma Empty5()
    ensures SipRound(Lanes(0x3abfd9623238d0a7, 0xb9354b5807b0cd1e, 0xae109fa2ba56082a, 0x58dcf8f2cf5b8028))
         == Lanes(0x3808f593fd8ef548, 0x2913fc753c3d6609, 0xa9fbd335618bbce1, 0xc1c9c6a9ec5136a2)
  {
    assert Mix(0x3abfd9623238d0a7, 0xb9354b5807b0cd1e, 13) == (0xf3f524ba39e99dc5, 0x5a9e244c204a4ae3);
    assert Mix(0xae109fa2ba56082a, 0x58dcf8f2cf5b8028, 16) == (0x6ed989589b18852, 0xfe1f57ce0999d08e);
    assert Mix(0x39e99dc5f3f524ba, 0xfe1f57ce0999d08e, 21) == (0x3808f593fd8ef548, 0xc1c9c6a9ec5136a2);
    assert Mix(0x6ed989589b18852, 0x5a9e244c204a4ae3, 17) == (0x618bbce1a9fbd335, 0x2913fc753c3d6609);
    assert Rotl(0xf3f524ba39e99dc5, 32) == 0x39e99dc5f3f524ba && Rotl(0x618bbce1a9fbd335, 32) == 0xa9fbd335618bbce1;
  }

  lemma Empty6()
    ensures SipRound(Lanes(0x3808f593fd8ef548, 0x2913fc753c3d6609, 0xa9fbd335618bbce1, 0xc1c9c6a9ec5136a2))
         == Lanes(0xe738d0dfdc9b2453, 0x214ac5771e0c4cd2, 0xe2ea71f68a57ef6d, 0x56f7bf1995ce89dd)
  {
    assert Mix(0x3808f593fd8ef548, 0x2913fc753c3d6609, 13) == (0x611cf20939cc5b51, 0x1e92558e950d7e73);
    assert Mix(0xa9fbd335618bbce1, 0xc1c9c6a9ec5136a2, 16) == (0x6bc599df4ddcf383, 0xad6c758e7b7e324a);
    assert Mix(0x39cc5b51611cf209, 0xad6c758e7b7e324a, 21) == (0xe738d0dfdc9b2453, 0x56f7bf1995ce89dd);
    assert Mix(0x6bc599df4ddcf383, 0x1e92558e950d7e73, 17) == (0x8a57ef6de2ea71f6, 0x214ac5771e0c4cd2);
    assert Rotl(0x611cf20939cc5b51, 32) == 0x39cc5b51611cf209 && Rotl(0x8a57ef6de2ea71f6, 32) == 0xe2ea71f68a57ef6d;
  }

  lemma Fifteen1()
    ensures SipRound(Lanes(0x7469686173716475, 0x6b617f6d656e6665, 0x6b7f62616d677361, 0x7c6d6c6a717c6d7b))
         == Lanes(0x64668a929363847f, 0x4ed232083d9aa8dc, 0xf2f74892d8141a2e, 0x9290f9810552f4a8)
  {
    assert Mix(0x7469686173716475, 0x6b617f6d656e6665, 13) == (0xdfcae7ced8dfcada, 0xf0274b63141367b6);
    assert Mix(0x6b7f62616d677361, 0x7c6d6c6a717c6d7b, 16) == (0xe7eccecbdee3e0dc, 0x8b86bfb7b3989cb1);
    assert Mix(0xd8dfcadadfcae7ce, 0x8b86bfb7b3989cb1, 21) == (0x64668a929363847f, 0x9290f9810552f4a8);
    assert Mix(0xe7eccecbdee3e0dc, 0xf0274b63141367b6, 17) == (0xd8141a2ef2f74892, 0x4ed232083d9aa8dc);
    assert Rotl(0xdfcae7ced8dfcada, 32) == 0xd8dfcadadfcae7ce && Rotl(0xd8141a2ef2f74892, 32) == 0xf2f74892d8141a2e;
  }

  lemma Fifteen2()
    ensures SipRound(Lanes(0x64668a929363847f, 0x4ed232083d9aa8dc, 0xf2f74892d8141a2e, 0x9290f9810552f4a8))
         == Lanes(0x4d07749cdd0858e0, 0xd52f6f62a4f59a4, 0x634cb3577b01fd3d, 0xa5224d6f55c7d9c8)
  {
    assert Mix(0x64668a929363847f, 0x4ed232083d9aa8dc, 13) == (0xb338bc9ad0fe2d5b, 0xf579bb2985e5a481);
    assert Mix(0xf2f74892d8141a2e, 0x9290f9810552f4a8, 16) == (0x85884213dd670ed6, 0x7c09474129cf9c46);
    assert Mix(0xd0fe2d5bb338bc9a, 0x7c09474129cf9c46, 21) == (0x4d07749cdd0858e0, 0xa5224d6f55c7d9c8);
    assert Mix(0x85884213dd670ed6, 0xf579bb2985e5a481, 17) == (0x7b01fd3d634cb357, 0xd52f6f62a4f59a4);
    assert Rotl(0xb338bc9ad0fe2d5b, 32) == 0xd0fe2d5bb338bc9a && Rotl(0x7b01fd3d634cb357, 32) == 0x634cb3577b01fd3d;
  }

  lemma Fifteen3()
    ensures SipRound(Lanes(0x4a017198de0a59e0, 0xd52f6f62a4f59a4, 0x634cb3577b01fd3d, 0xaa2c40635ecdd0c0))
         == Lanes(0x557560fb6063d060, 0x4c8e675bd961133e, 0xbd3d002b1703a181, 0xfb9441179a4a7315)
  {
    assert Mix(0x4a017198de0a59e0, 0xd52f6f62a4f59a4, 13) == (0x5754688f0859b384, 0x98aadc6e36d322e);
    assert Mix(0x634cb3577b01fd3d, 0xaa2c40635ecdd0c0, 16) == (0xd78f3bad9cfcdfd, 0x4d1bad77090f67d1);
    assert Mix(0x859b3845754688f, 0x4d1bad77090f67d1, 21) == (0x557560fb6063d060, 0xfb9441179a4a7315);
    assert Mix(0xd78f3bad9cfcdfd, 0x98aadc6e36d322e, 17) == (0x1703a181bd3d002b, 0x4c8e675bd961133e);
    assert Rotl(0x5754688f0859b384, 32) == 0x859b3845754688f && Rotl(0x1703a181bd3d002b, 32) == 0xbd3d002b1703a181;
  }

  lemma Fifteen4()
    ensures SipRound(Lanes(0x557560fb6063d060, 0x4c8e675bd961133e, 0xbd3d002b1703a181, 0xfb9441179a4a7315))
         == Lanes(0x338bbea7645fb759, 0x414fc3fb98efe374, 0xccf13ea527b9f4bd, 0x5293f5da84008f82)
  {
    assert Mix(0x557560fb6063d060, 0x4c8e675bd961133e, 13) == (0xa203c85739c4e39e, 0x6ee8b37b1ba32a0f);
    assert Mix(0xbd3d002b1703a181, 0xfb9441179a4a7315, 16) == (0xb8d14142b14e1496, 0xf9c6db08c25bef02);
    assert Mix(0x39c4e39ea203c857, 0xf9c6db08c25bef02, 21) == (0x338bbea7645fb759, 0x5293f5da84008f82);
    assert Mix(0xb8d14142b14e1496, 0x6ee8b37b1ba32a0f, 17) == (0x27b9f4bdccf13ea5, 0x414fc3fb98efe374);
    assert Rotl(0xa203c85739c4e39e, 32) == 0x39c4e39ea203c857 && Rotl(0x27b9f4bdccf13ea5, 32) == 0xccf13ea527b9f4bd;
  }

  lemma Fifteen5()
    ensures SipRound(Lanes(0x3c85b3ab6f55be51, 0x414fc3fb98efe374, 0xccf13ea527b9f442, 0x5293f5da84008f82))
         == Lanes(0xf2a55244a20e48fe, 0xac5ad16ccc3ca6e4, 0x9fe5adb0a52f393a, 0xfd41d55e88f30308)
  {
    assert Mix(0x3c85b3ab6f55be51, 0x414fc3fb98efe374, 13) == (0x7dd577a70845a1c5, 0x85aa04baf42b29ec);
    assert Mix(0xccf13ea527b9f442, 0x5293f5da84008f82, 16) == (0x1f85347fabba83c4, 0xea5fb07f2438d157);
    assert Mix(0x845a1c57dd577a7, 0xea5fb07f2438d157, 21) == (0xf2a55244a20e48fe, 0xfd41d55e88f30308);
    assert Mix(0x1f85347fabba83c4, 0x85aa04baf42b29ec, 17) == (0xa52f393a9fe5adb0, 0xac5ad16ccc3ca6e4);
    assert Rotl(0x7dd577a70845a1c5, 32) == 0x845a1c57dd577a7 && Rotl(0xa52f393a9fe5adb0, 32) == 0x9fe5adb0a52f393a;
  }

  lemma Fifteen6()
    ensures SipRound(Lanes(0xf2a55244a20e48fe, 0xac5ad16ccc3ca6e4, 0x9fe5adb0a52f393a, 0xfd41d55e88f30308))
         == Lanes(0xb6c3fbdecc2ae4b4, 0x1638c86adc6b3cf0, 0x28b8b6ab62553d46, 0xc9465e86ec43eb95)
  {
    assert Mix(0xf2a55244a20e48fe, 0xac5ad16ccc3ca6e4, 13) == (0x9f0023b16e4aefe2, 0xc52dba36fa967a69);
    assert Mix(0x9fe5adb0a52f393a, 0xfd41d55e88f30308, 16) == (0x9d27830f2e223c42, 0x48790bfc2d2ac103);
    assert Mix(0x6e4aefe29f0023b1, 0x48790bfc2d2ac103, 21) == (0xb6c3fbdecc2ae4b4, 0xc9465e86ec43eb95);
    assert Mix(0x9d27830f2e223c42, 0xc52dba36fa967a69, 17) == (0x62553d4628b8b6ab, 0x1638c86adc6b3cf0);
    assert Rotl(0x9f0023b16e4aefe2, 32) == 0x6e4aefe29f0023b1 && Rotl(0x62553d4628b8b6ab, 32) == 0x28b8b6ab62553d46;
  }

  lemma Fifteen7()
    ensures SipRound(Lanes(0xb6c3fbdecc2ae4b4, 0x1638c86adc6b3cf0, 0x28b8b6ab62553d46, 0xc9465e86ec43eb95))
         == Lanes(0x58101b167209a5e6, 0xf8792ae75b66e7dd, 0x1da14c3ec7f0b4f7, 0x7624ba8a41bc4ad9)
  {
    assert Mix(0xb6c3fbdecc2ae4b4, 0x1638c86adc6b3cf0, 13) == (0xccfcc449a89621a4, 0xd5f19fc4cf082363);
    assert Mix(0x28b8b6ab62553d46, 0xc9465e86ec43eb95, 16) == (0xf1ff15324e9928db, 0xaf79f971a50ce19d);
    assert Mix(0xa89621a4ccfcc449, 0xaf79f971a50ce19d, 21) == (0x58101b167209a5e6, 0x7624ba8a41bc4ad9);
    assert Mix(0xf1ff15324e9928db, 0xd5f19fc4cf082363, 17) == (0xc7f0b4f71da14c3e, 0xf8792ae75b66e7dd);
    assert Rotl(0xccfcc449a89621a4, 32) == 0xa89621a4ccfcc449 && Rotl(0xc7f0b4f71da14c3e, 32) == 0x1da14c3ec7f0b4f7;
  }

  lemma Fifteen8()
    ensures SipRound(Lanes(0x58101b167209a5e6, 0xf8792ae75b66e7dd, 0x1da14c3ec7f0b4f7, 0x7624ba8a41bc4ad9))
         == Lanes(0xf6bcd53893fecff1, 0x54b9964c7ea0d937, 0x1b38329c099bb55a, 0x1814bb89ad7be679)
  {
    assert Mix(0x58101b167209a5e6, 0xf8792ae75b66e7dd, 13) == (0x508945fdcd708dc3, 0x75d5ae91118b32cc);
    assert Mix(0x1da14c3ec7f0b4f7, 0x7624ba8a41bc4ad9, 16) == (0x93c606c909acffd0, 0x294c4775437589f4);
    assert Mix(0xcd708dc3508945fd, 0x294c4775437589f4, 21) == (0xf6bcd53893fecff1, 0x1814bb89ad7be679);
    assert Mix(0x93c606c909acffd0, 0x75d5ae91118b32cc, 17) == (0x99bb55a1b38329c, 0x54b9964c7ea0d937);
    assert Rotl(0x508945fdcd708dc3, 32) == 0xcd708dc3508945fd && Rotl(0x99bb55a1b38329c, 32) == 0x1b38329c099bb55a;
  }

  lemma EmptyBlock()
    ensures AbsorbWord(2, Lanes(0x7469686173716475, 0x6b617f6d656e6665, 0x6b7f62616d677361, 0x7b6b696e727e6c7b), 0x0)
         == Lanes(0x75126fd44af190b6, 0x84235164f06142b, 0x37b04f9f8026831d, 0x1b4678cde8253231)
  {
    Empty1();
    Empty2();
    assert (0x7b6b696e727e6c7b as bv64) ^ 0x0 == 0x7b6b696e727e6c7b && (0x75126fd44af190b6 as bv64) ^ 0x0 == 0x75126fd44af190b6;
    TwoRounds(Lanes(0x7469686173716475, 0x6b617f6d656e6665, 0x6b7f62616d677361, 0x7b6b696e727e6c7b));
  }

  lemma EmptyEnd()
    ensures Finish(4, Lanes(0x75126fd44af190b6, 0x84235164f06142b, 0x37b04f9f8026831d, 0x1b4678cde8253231)) == 0x726fdb47dd0e0e31
  {
    Empty3();
    Empty4();
    Empty5();
    Empty6();
    assert (0x37b04f9f8026831d as bv64) ^ 0xff == 0x37b04f9f802683e2;
    assert (0xe738d0dfdc9b2453 as bv64) ^ 0x214ac5771e0c4cd2 ^ 0xe2ea71f68a57ef6d ^ 0x56f7bf1995ce89dd == 0x726fdb47dd0e0e31;
    FourRounds(Lanes(0x75126fd44af190b6, 0x84235164f06142b, 0x37b04f9f802683e2, 0x1b4678cde8253231));
  }

  lemma FifteenBlock1()
    ensures AbsorbWord(2, Lanes(0x7469686173716475, 0x6b617f6d656e6665, 0x6b7f62616d677361, 0x7b6b696e727e6c7b), 0x706050403020100)
         == Lanes(0x4a017198de0a59e0, 0xd52f6f62a4f59a4, 0x634cb3577b01fd3d, 0xa5224d6f55c7d9c8)
  {
    Fifteen1();
    Fifteen2();
    assert (0x7b6b696e727e6c7b as bv64) ^ 0x706050403020100 == 0x7c6d6c6a717c6d7b && (0x4d07749cdd0858e0 as bv64) ^ 0x706050403020100 == 0x4a017198de0a59e0;
    TwoRounds(Lanes(0x7469686173716475, 0x6b617f6d656e6665, 0x6b7f62616d677361, 0x7c6d6c6a717c6d7b));
  }

  lemma FifteenBlock2()
    ensures AbsorbWord(2, Lanes(0x4a017198de0a59e0, 0xd52f6f62a4f59a4, 0x634cb3577b01fd3d, 0xa5224d6f55c7d9c8), 0xf0e0d0c0b0a0908)
         == Lanes(0x3c85b3ab6f55be51, 0x414fc3fb98efe374, 0xccf13ea527b9f4bd, 0x5293f5da84008f82)
  {
    Fifteen3();
    Fifteen4();
    assert (0xa5224d6f55c7d9c8 as bv64) ^ 0xf0e0d0c0b0a0908 == 0xaa2c40635ecdd0c0 && (0x338bbea7645fb759 as bv64) ^ 0xf0e0d0c0b0a0908 == 0x3c85b3ab6f55be51;
    TwoRounds(Lanes(0x4a017198de0a59e0, 0xd52f6f62a4f59a4, 0x634cb3577b01fd3d, 0xaa2c40635ecdd0c0));
  }

  lemma FifteenEnd()
    ensures Finish(4, Lanes(0x3c85b3ab6f55be51, 0x414fc3fb98efe374, 0xccf13ea527b9f4bd, 0x5293f5da84008f82)) == 0xa129ca6149be45e5
  {
    Fifteen5();
    Fifteen6();
    Fifteen7();
    Fifteen8();
    assert (0xccf13ea527b9f4bd as bv64) ^ 0xff == 0xccf13ea527b9f442;
    assert (0xf6bcd53893fecff1 as bv64) ^ 0x54b9964c7ea0d937 ^ 0x1b38329c099bb55a ^ 0x1814bb89ad7be679 == 0xa129ca6149be45e5;
    FourRounds(Lanes(0x3c85b3ab6f55be51, 0x414fc3fb98efe374, 0xccf13ea527b9f442, 0x5293f5da84008f82));
  }

  // --------------------------------------------------------------- whole hashes

  lemma LoadedKey()
    ensures LoadWord(KEY[..8]) == 0x706050403020100 && LoadWord(KEY[8..]) == 0xf0e0d0c0b0a0908
  {
    assert KEY[..8] == [0, 1, 2, 3, 4, 5, 6, 7] && KEY[8..] == [8, 9, 10, 11, 12, 13, 14, 15];
    assert LoadWord([0, 1, 2, 3, 4, 5, 6, 7]) == 0x706050403020100;
    assert LoadWord([8, 9, 10, 11, 12, 13, 14, 15]) == 0xf0e0d0c0b0a0908;
  }

  lemma KeyedLanes()
    ensures Init(KEY) == Lanes(0x7469686173716475, 0x6b617f6d656e6665, 0x6b7f62616d677361, 0x7b6b696e727e6c7b)
  {
    LoadedKey();
  }

  lemma OneBlock(c: nat, l: Lanes, b: Octets)
    requires |b| == 8
    ensures Fold(Absorb(c), l, b) == AbsorbWord(c, l, LoadWord(b))
  {
    assert b[8..] == [] && b[..8] == b;
  }

  /** The hash of the empty message. */
  lemma EmptyVector()
    ensures HashOf(2, 4, [], KEY) == 0x726fdb47dd0e0e31
  {
    var b: Octets := [0, 0, 0, 0, 0, 0, 0, 0];
    assert Padded([]) == b;
    assert LoadWord(b) == 0;
    KeyedLanes();
    OneBlock(2, Init(KEY), b);
    EmptyBlock();
    EmptyEnd();
  }

  /** The hash of the bytes 0 to 14: a whole block, seven bytes of tail, and the length. */
  lemma FifteenVector()
    ensures HashOf(2, 4, FIFTEEN, KEY) == 0xa129ca6149be45e5
  {
    var b1: Octets, b2: Octets := [0, 1, 2, 3, 4, 5, 6, 7], [8, 9, 10, 11, 12, 13, 14, 15];
    assert Padded(FIFTEEN) == b1 + b2;
    assert LoadWord(b1) == 0x706050403020100;
    assert LoadWord(b2) == 0xf0e0d0c0b0a0908;
    KeyedLanes();
    OneBlock(2, Init(KEY), b1);
    FifteenBlock1();
    OneBlock(2, AbsorbWord(2, Init(KEY), LoadWord(b1)), b2);
    assert (b1 + b2)[..8] == b1 && (b1 + b2)[8..] == b2;
    FifteenBlock2();
    FifteenEnd();
  }
}
