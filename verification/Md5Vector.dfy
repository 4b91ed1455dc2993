/**
 MD5 of one message worked through step by step: the twenty-six small letters, from the test
 suite in section A.5 of RFC 1321.
 */
module Md5Vector {
  import opened Bytes
  import opened Md5Block
  import opened Md5

  /** "abcdefghijklmnopqrstuvwxyz" */
  function Letters(): (s: octets)
    ensures |s| == 26
  {
    seq(26, i requires 0 <= i < 26 => 97 + i)
  }

  /** The words of its one block. */
  predicate IsText(x: seq<bv32>) {
    && |x| == 16
    && x[0] == 0x64636261 && x[1] == 0x68676665 && x[2] == 0x6c6b6a69 && x[3] == 0x706f6e6d
    && x[4] == 0x74737271 && x[5] == 0x78777675 && x[6] == 0x00807a79 && x[7] == 0
    && x[8] == 0 && x[9] == 0 && x[10] == 0 && x[11] == 0
    && x[12] == 0 && x[13] == 0 && x[14] == 0x000000d0 && x[15] == 0
  }

  lemma StepTo(q: Digest, x: seq<bv32>, i: nat, a: bv32, b: bv32, c: bv32, d: bv32, k: nat, w: bv32, s: nat, t: bv32, r: bv32)
    requires i < 64 && |x| == 16 && Steps(q, x, i) == Digest(a, b, c, d)
    requires k == Index(i) && x[k] == w && s == Shift(i) && t == T(i + 1)
    requires Set(Mix(i, b, c, d), a, b, w, s, t) == r
    ensures Steps(q, x, i + 1) == Digest(d, r, b, c)
  {
    hide *;
    SetIsStep(q, x, i, a, b, c, d);
  }

  lemma Steps0(q: Digest, x: seq<bv32>)
    requires IsText(x) && Steps(q, x, 0) == Digest(0x67452301, 0xefcdab89, 0x98badcfe, 0x10325476)
    ensures Steps(q, x, 4) == Digest(0xd6d117a6, 0x4503b812, 0x227d8cf1, 0xaab1aaaa)
  {
    hide Steps;
    StepTo(q, x, 0, 0x67452301, 0xefcdab89, 0x98badcfe, 0x10325476, 0, 0x64636261, 7, 0xd76aa478, 0xd6d117a6);
    StepTo(q, x, 1, 0x10325476, 0xd6d117a6, 0xefcdab89, 0x98badcfe, 1, 0x68676665, 12, 0xe8c7b756, 0xaab1aaaa);
    StepTo(q, x, 2, 0x98badcfe, 0xaab1aaaa, 0xd6d117a6, 0xefcdab89, 2, 0x6c6b6a69, 17, 0x242070db, 0x227d8cf1);
    StepTo(q, x, 3, 0xefcdab89, 0x227d8cf1, 0xaab1aaaa, 0xd6d117a6, 3, 0x706f6e6d, 22, 0xc1bdceee, 0x4503b812);
  }

  lemma Steps4(q: Digest, x: seq<bv32>)
    requires IsText(x) && Steps(q, x, 4) == Digest(0xd6d117a6, 0x4503b812, 0x227d8cf1, 0xaab1aaaa)
    ensures Steps(q, x, 8) == Digest(0xfe15f787, 0xda9bbb0d, 0xb71122fc, 0xa811b278)
  {
    hide Steps;
    StepTo(q, x, 4, 0xd6d117a6, 0x4503b812, 0x227d8cf1, 0xaab1aaaa, 4, 0x74737271, 7, 0xf57c0faf, 0xfe15f787);
    StepTo(q, x, 5, 0xaab1aaaa, 0xfe15f787, 0x4503b812, 0x227d8cf1, 5, 0x78777675, 12, 0x4787c62a, 0xa811b278);
    StepTo(q, x, 6, 0x227d8cf1, 0xa811b278, 0xfe15f787, 0x4503b812, 6, 0x00807a79, 17, 0xa8304613, 0xb71122fc);
    StepTo(q, x, 7, 0x4503b812, 0xb71122fc, 0xa811b278, 0xfe15f787, 7, 0, 22, 0xfd469501, 0xda9bbb0d);
  }

  lemma Steps8(q: Digest, x: seq<bv32>)
    requires IsText(x) && Steps(q, x, 8) == Digest(0xfe15f787, 0xda9bbb0d, 0xb71122fc, 0xa811b278)
    ensures Steps(q, x, 12) == Digest(0xae752899, 0x56cfa5cb, 0x7d4bd80b, 0x2bbe757f)
  {
    hide Steps;
    StepTo(q, x, 8, 0xfe15f787, 0xda9bbb0d, 0xb71122fc, 0xa811b278, 8, 0, 7, 0x698098d8, 0xae752899);
    StepTo(q, x, 9, 0xa811b278, 0xae752899, 0xda9bbb0d, 0xb71122fc, 9, 0, 12, 0x8b44f7af, 0x2bbe757f);
    StepTo(q, x, 10, 0xb71122fc, 0x2bbe757f, 0xae752899, 0xda9bbb0d, 10, 0, 17, 0xffff5bb1, 0x7d4bd80b);
    StepTo(q, x, 11, 0xda9bbb0d, 0x7d4bd80b, 0x2bbe757f, 0xae752899, 11, 0, 22, 0x895cd7be, 0x56cfa5cb);
  }

  lemma Steps12(q: Digest, x: seq<bv32>)
    requires IsText(x) && Steps(q, x, 12) == Digest(0xae752899, 0x56cfa5cb, 0x7d4bd80b, 0x2bbe757f)
    ensures Steps(q, x, 16) == Digest(0x1754a316, 0x608d6b7e, 0x00df74d5, 0x85567d90)
  {
    hide Steps;
    StepTo(q, x, 12, 0xae752899, 0x56cfa5cb, 0x7d4bd80b, 0x2bbe757f, 12, 0, 7, 0x6b901122, 0x1754a316);
    StepTo(q, x, 13, 0x2bbe757f, 0x1754a316, 0x56cfa5cb, 0x7d4bd80b, 13, 0, 12, 0xfd987193, 0x85567d90);
    StepTo(q, x, 14, 0x7d4bd80b, 0x85567d90, 0x1754a316, 0x56cfa5cb, 14, 0x000000d0, 17, 0xa679438e, 0x00df74d5);
    StepTo(q, x, 15, 0x56cfa5cb, 0x00df74d5, 0x85567d90, 0x1754a316, 15, 0, 22, 0x49b40821, 0x608d6b7e);
  }

  lemma Steps16(q: Digest, x: seq<bv32>)
    requires IsText(x) && Steps(q, x, 16) == Digest(0x1754a316, 0x608d6b7e, 0x00df74d5, 0x85567d90)
    ensures Steps(q, x, 20) == Digest(0x2d8071cc, 0x4c2145b3, 0xedfe7e4b, 0x5dcee119)
  {
    hide Steps;
    StepTo(q, x, 16, 0x1754a316, 0x608d6b7e, 0x00df74d5, 0x85567d90, 1, 0x68676665, 5, 0xf61e2562, 0x2d8071cc);
    StepTo(q, x, 17, 0x85567d90, 0x2d8071cc, 0x608d6b7e, 0x00df74d5, 6, 0x00807a79, 9, 0xc040b340, 0x5dcee119);
    StepTo(q, x, 18, 0x00df74d5, 0x5dcee119, 0x2d8071cc, 0x608d6b7e, 11, 0, 14, 0x265e5a51, 0xedfe7e4b);
    StepTo(q, x, 19, 0x608d6b7e, 0xedfe7e4b, 0x5dcee119, 0x2d8071cc, 0, 0x64636261, 20, 0xe9b6c7aa, 0x4c2145b3);
  }

  lemma Steps20(q: Digest, x: seq<bv32>)
    requires IsText(x) && Steps(q, x, 20) == Digest(0x2d8071cc, 0x4c2145b3, 0xedfe7e4b, 0x5dcee119)
    ensures Steps(q, x, 24) == Digest(0x570c43e0, 0xc9f162d4, 0xc28ab49d, 0x977efd2a)
  {
    hide Steps;
    StepTo(q, x, 20, 0x2d8071cc, 0x4c2145b3, 0xedfe7e4b, 0x5dcee119, 5, 0x78777675, 5, 0xd62f105d, 0x570c43e0);
    StepTo(q, x, 21, 0x5dcee119, 0x570c43e0, 0x4c2145b3, 0xedfe7e4b, 10, 0, 9, 0x02441453, 0x977efd2a);
    StepTo(q, x, 22, 0xedfe7e4b, 0x977efd2a, 0x570c43e0, 0x4c2145b3, 15, 0, 14, 0xd8a1e681, 0xc28ab49d);
    StepTo(q, x, 23, 0x4c2145b3, 0xc28ab49d, 0x977efd2a, 0x570c43e0, 4, 0x74737271, 20, 0xe7d3fbc8, 0xc9f162d4);
  }

  lemma Steps24(q: Digest, x: seq<bv32>)
    requires IsText(x) && Steps(q, x, 24) == Digest(0x570c43e0, 0xc9f162d4, 0xc28ab49d, 0x977efd2a)
    ensures Steps(q, x, 28) == Digest(0x25bfae3b, 0xe6d3b398, 0xf8c8365f, 0x89980104)
  {
    hide Steps;
    StepTo(q, x, 24, 0x570c43e0, 0xc9f162d4, 0xc28ab49d, 0x977efd2a, 9, 0, 5, 0x21e1cde6, 0x25bfae3b);
    StepTo(q, x, 25, 0x977efd2a, 0x25bfae3b, 0xc9f162d4, 0xc28ab49d, 14, 0x000000d0, 9, 0xc33707d6, 0x89980104);
    StepTo(q, x, 26, 0xc28ab49d, 0x89980104, 0x25bfae3b, 0xc9f162d4, 3, 0x706f6e6d, 14, 0xf4d50d87, 0xf8c8365f);
    StepTo(q, x, 27, 0xc9f162d4, 0xf8c8365f, 0x89980104, 0x25bfae3b, 8, 0, 20, 0x455a14ed, 0xe6d3b398);
  }

  lemma Steps28(q: Digest, x: seq<bv32>)
    requires IsText(x) && Steps(q, x, 28) == Digest(0x25bfae3b, 0xe6d3b398, 0xf8c8365f, 0x89980104)
    ensures Steps(q, x, 32) == Digest(0xf54d8710, 0xaeb35766, 0x2e69afc7, 0x927b72e2)
  {
    hide Steps;
    StepTo(q, x, 28, 0x25bfae3b, 0xe6d3b398, 0xf8c8365f, 0x89980104, 13, 0, 5, 0xa9e3e905, 0xf54d8710);
    StepTo(q, x, 29, 0x89980104, 0xf54d8710, 0xe6d3b398, 0xf8c8365f, 2, 0x6c6b6a69, 9, 0xfcefa3f8, 0x927b72e2);
    StepTo(q, x, 30, 0xf8c8365f, 0x927b72e2, 0xf54d8710, 0xe6d3b398, 7, 0, 14, 0x676f02d9, 0x2e69afc7);
    StepTo(q, x, 31, 0xe6d3b398, 0x2e69afc7, 0x927b72e2, 0xf54d8710, 12, 0, 20, 0x8d2a4c8a, 0xaeb35766);
  }

  lemma Steps32(q: Digest, x: seq<bv32>)
    requires IsText(x) && Steps(q, x, 32) == Digest(0xf54d8710, 0xaeb35766, 0x2e69afc7, 0x927b72e2)
    ensures Steps(q, x, 36) == Digest(0xb4bf680e, 0x06a5e211, 0x2361ed0a, 0x4c8ffa80)
  {
    hide Steps;
    StepTo(q, x, 32, 0xf54d8710, 0xaeb35766, 0x2e69afc7, 0x927b72e2, 5, 0x78777675, 4, 0xfffa3942, 0xb4bf680e);
    StepTo(q, x, 33, 0x927b72e2, 0xb4bf680e, 0xaeb35766, 0x2e69afc7, 8, 0, 11, 0x8771f681, 0x4c8ffa80);
    StepTo(q, x, 34, 0x2e69afc7, 0x4c8ffa80, 0xb4bf680e, 0xaeb35766, 11, 0, 16, 0x6d9d6122, 0x2361ed0a);
    StepTo(q, x, 35, 0xaeb35766, 0x2361ed0a, 0x4c8ffa80, 0xb4bf680e, 14, 0x000000d0, 23, 0xfde5380c, 0x06a5e211);
  }

  lemma Steps36(q: Digest, x: seq<bv32>)
    requires IsText(x) && Steps(q, x, 36) == Digest(0xb4bf680e, 0x06a5e211, 0x2361ed0a, 0x4c8ffa80)
    ensures Steps(q, x, 40) == Digest(0xb9c0c733, 0x8d41bf99, 0x23a9451b, 0xf1e6dc7a)
  {
    hide Steps;
    StepTo(q, x, 36, 0xb4bf680e, 0x06a5e211, 0x2361ed0a, 0x4c8ffa80, 1, 0x68676665, 4, 0xa4beea44, 0xb9c0c733);
    StepTo(q, x, 37, 0x4c8ffa80, 0xb9c0c733, 0x06a5e211, 0x2361ed0a, 4, 0x74737271, 11, 0x4bdecfa9, 0xf1e6dc7a);
    StepTo(q, x, 38, 0x2361ed0a, 0xf1e6dc7a, 0xb9c0c733, 0x06a5e211, 7, 0, 16, 0xf6bb4b60, 0x23a9451b);
    StepTo(q, x, 39, 0x06a5e211, 0x23a9451b, 0xf1e6dc7a, 0xb9c0c733, 10, 0, 23, 0xbebfbc70, 0x8d41bf99);
  }

  lemma Steps40(q: Digest, x: seq<bv32>)
    requires IsText(x) && Steps(q, x, 40) == Digest(0xb9c0c733, 0x8d41bf99, 0x23a9451b, 0xf1e6dc7a)
    ensures Steps(q, x, 44) == Digest(0xa3e88ead, 0x90a35af5, 0x66f6468d, 0x02c0b11c)
  {
    hide Steps;
    StepTo(q, x, 40, 0xb9c0c733, 0x8d41bf99, 0x23a9451b, 0xf1e6dc7a, 13, 0, 4, 0x289b7ec6, 0xa3e88ead);
    StepTo(q, x, 41, 0xf1e6dc7a, 0xa3e88ead, 0x8d41bf99, 0x23a9451b, 0, 0x64636261, 11, 0xeaa127fa, 0x02c0b11c);
    StepTo(q, x, 42, 0x23a9451b, 0x02c0b11c, 0xa3e88ead, 0x8d41bf99, 3, 0x706f6e6d, 16, 0xd4ef3085, 0x66f6468d);
    StepTo(q, x, 43, 0x8d41bf99, 0x66f6468d, 0x02c0b11c, 0xa3e88ead, 6, 0x00807a79, 23, 0x04881d05, 0x90a35af5);
  }

  lemma Steps44(q: Digest, x: seq<bv32>)
    requires IsText(x) && Steps(q, x, 44) == Digest(0xa3e88ead, 0x90a35af5, 0x66f6468d, 0x02c0b11c)
    ensures Steps(q, x, 48) == Digest(0xb5d41f9c, 0x71d10367, 0x703d54d8, 0xa04b4904)
  {
    hide Steps;
    StepTo(q, x, 44, 0xa3e88ead, 0x90a35af5, 0x66f6468d, 0x02c0b11c, 9, 0, 4, 0xd9d4d039, 0xb5d41f9c);
    StepTo(q, x, 45, 0x02c0b11c, 0xb5d41f9c, 0x90a35af5, 0x66f6468d, 12, 0, 11, 0xe6db99e5, 0xa04b4904);
    StepTo(q, x, 46, 0x66f6468d, 0xa04b4904, 0xb5d41f9c, 0x90a35af5, 15, 0, 16, 0x1fa27cf8, 0x703d54d8);
    StepTo(q, x, 47, 0x90a35af5, 0x703d54d8, 0xa04b4904, 0xb5d41f9c, 2, 0x6c6b6a69, 23, 0xc4ac5665, 0x71d10367);
  }

  lemma Steps48(q: Digest, x: seq<bv32>)
    requires IsText(x) && Steps(q, x, 48) == Digest(0xb5d41f9c, 0x71d10367, 0x703d54d8, 0xa04b4904)
    ensures Steps(q, x, 52) == Digest(0xfc32dd6e, 0x33edb197, 0xb35602cb, 0x65456b34)
  {
    hide Steps;
    StepTo(q, x, 48, 0xb5d41f9c, 0x71d10367, 0x703d54d8, 0xa04b4904, 0, 0x64636261, 6, 0xf4292244, 0xfc32dd6e);
    StepTo(q, x, 49, 0xa04b4904, 0xfc32dd6e, 0x71d10367, 0x703d54d8, 7, 0, 10, 0x432aff97, 0x65456b34);
    StepTo(q, x, 50, 0x703d54d8, 0x65456b34, 0xfc32dd6e, 0x71d10367, 14, 0x000000d0, 15, 0xab9423a7, 0xb35602cb);
    StepTo(q, x, 51, 0x71d10367, 0xb35602cb, 0x65456b34, 0xfc32dd6e, 5, 0x78777675, 21, 0xfc93a039, 0x33edb197);
  }

  lemma Steps52(q: Digest, x: seq<bv32>)
    requires IsText(x) && Steps(q, x, 52) == Digest(0xfc32dd6e, 0x33edb197, 0xb35602cb, 0x65456b34)
    ensures Steps(q, x, 56) == Digest(0xc1e942f1, 0x83877d1b, 0x23a68048, 0xd9bb987c)
  {
    hide Steps;
    StepTo(q, x, 52, 0xfc32dd6e, 0x33edb197, 0xb35602cb, 0x65456b34, 12, 0, 6, 0x655b59c3, 0xc1e942f1);
    StepTo(q, x, 53, 0x65456b34, 0xc1e942f1, 0x33edb197, 0xb35602cb, 3, 0x706f6e6d, 10, 0x8f0ccc92, 0xd9bb987c);
    StepTo(q, x, 54, 0xb35602cb, 0xd9bb987c, 0xc1e942f1, 0x33edb197, 10, 0, 15, 0xffeff47d, 0x23a68048);
    StepTo(q, x, 55, 0x33edb197, 0x23a68048, 0xd9bb987c, 0xc1e942f1, 1, 0x68676665, 21, 0x85845dd1, 0x83877d1b);
  }

  lemma Steps56(q: Digest, x: seq<bv32>)
    requires IsText(x) && Steps(q, x, 56) == Digest(0xc1e942f1, 0x83877d1b, 0x23a68048, 0xd9bb987c)
    ensures Steps(q, x, 60) == Digest(0x0077c208, 0x5e6bc930, 0xa3e2247f, 0x847fc2e7)
  {
    hide Steps;
    StepTo(q, x, 56, 0xc1e942f1, 0x83877d1b, 0x23a68048, 0xd9bb987c, 8, 0, 6, 0x6fa87e4f, 0x0077c208);
    StepTo(q, x, 57, 0xd9bb987c, 0x0077c208, 0x83877d1b, 0x23a68048, 15, 0, 10, 0xfe2ce6e0, 0x847fc2e7);
    StepTo(q, x, 58, 0x23a68048, 0x847fc2e7, 0x0077c208, 0x83877d1b, 6, 0x00807a79, 15, 0xa3014314, 0xa3e2247f);
    StepTo(q, x, 59, 0x83877d1b, 0xa3e2247f, 0x847fc2e7, 0x0077c208, 13, 0, 21, 0x4e0811a1, 0x5e6bc930);
  }

  lemma Steps60(q: Digest, x: seq<bv32>)
    requires IsText(x) && Steps(q, x, 60) == Digest(0x0077c208, 0x5e6bc930, 0xa3e2247f, 0x847fc2e7)
    ensures Steps(q, x, 64) == Digest(0x708ed9c2, 0x1116e6d8, 0xd38f1e7f, 0x2baf1354)
  {
    hide Steps;
    StepTo(q, x, 60, 0x0077c208, 0x5e6bc930, 0xa3e2247f, 0x847fc2e7, 4, 0x74737271, 6, 0xf7537e82, 0x708ed9c2);
    StepTo(q, x, 61, 0x847fc2e7, 0x708ed9c2, 0x5e6bc930, 0xa3e2247f, 11, 0, 10, 0xbd3af235, 0x2baf1354);
    StepTo(q, x, 62, 0xa3e2247f, 0x2baf1354, 0x708ed9c2, 0x5e6bc930, 2, 0x6c6b6a69, 15, 0x2ad7d2bb, 0xd38f1e7f);
    StepTo(q, x, 63, 0x5e6bc930, 0xd38f1e7f, 0x2baf1354, 0x708ed9c2, 9, 0, 21, 0xeb86d391, 0x1116e6d8);
  }

  lemma AllSteps(q: Digest, x: seq<bv32>)
    requires IsText(x) && |x| == 16 && q == Digest(0x67452301, 0xefcdab89, 0x98badcfe, 0x10325476)
    ensures Steps(q, x, 64) == Digest(0x708ed9c2, 0x1116e6d8, 0xd38f1e7f, 0x2baf1354)
  {
    hide *;
    StepsStart(q, x);
    Steps0(q, x);
    Steps4(q, x);
    Steps8(q, x);
    Steps12(q, x);
    Steps16(q, x);
    Steps20(q, x);
    Steps24(q, x);
    Steps28(q, x);
    Steps32(q, x);
    Steps36(q, x);
    Steps40(q, x);
    Steps44(q, x);
    Steps48(q, x);
    Steps52(q, x);
    Steps56(q, x);
    Steps60(q, x);
  }

  lemma LastSum()
    ensures Added(Digest(0x67452301, 0xefcdab89, 0x98badcfe, 0x10325476), Digest(0x708ed9c2, 0x1116e6d8, 0xd38f1e7f, 0x2baf1354)) ==
            Digest(0xd7d3fcc3, 0x00e49261, 0x6c49fb7d, 0x3be167ca)
  {
  }

  /** The letters padded to one block. */
  function Block(): octets {
    Letters() + [0x80] + Zeros(29) + [208, 0, 0, 0, 0, 0, 0, 0]
  }

  lemma LengthBytes()
    ensures LittleEndian(208, 8) == [208, 0, 0, 0, 0, 0, 0, 0]
  {
    NoBytes(4);
    assert LittleEndian(0, 7) == [0] + LittleEndian(0, 6);
    assert LittleEndian(0, 6) == [0] + LittleEndian(0, 5);
    assert LittleEndian(0, 5) == [0] + LittleEndian(0, 4);
  }

  lemma NoBytes(k: nat)
    requires k == 4
    ensures LittleEndian(0, k) == [0, 0, 0, 0]
  {
    assert LittleEndian(0, 0) == [];
    assert LittleEndian(0, 1) == [0];
    assert LittleEndian(0, 2) == [0] + LittleEndian(0, 1);
    assert LittleEndian(0, 3) == [0] + LittleEndian(0, 2);
    assert LittleEndian(0, 4) == [0] + LittleEndian(0, 3);
  }

  lemma PaddedLetters()
    ensures Padded(Letters()) == Block() && |Block()| == 64
  {
    LengthBytes();
    hide LittleEndian;
    assert |Letters()| == 26;
    assert Padding(26) == [0x80] + Zeros(29);
  }

  /** The i-th byte of the block. */
  function At(i: nat): octet {
    if i < 26 then 97 + i else if i == 26 then 0x80 else if i == 56 then 208 else 0
  }

  lemma BlockAt(i: nat)
    requires i < 64
    ensures |Block()| == 64 && Block()[i] == At(i)
  {
  }

  lemma WordIsAt(k: nat)
    requires k < 16
    ensures |Block()| == 64 && WordAt(Block(), k) == Bits(Joined(At(4 * k), At(4 * k + 1), At(4 * k + 2), At(4 * k + 3)))
  {
    BlockAt(4 * k);
    BlockAt(4 * k + 1);
    BlockAt(4 * k + 2);
    BlockAt(4 * k + 3);
    var s := Block();
    hide Block, At, Bits, Joined, FromLittleEndian;
    var four := s[4 * k..4 * k + 4];
    FourBytes(four);
    assert four[0] == s[4 * k] && four[1] == s[4 * k + 1] && four[2] == s[4 * k + 2] && four[3] == s[4 * k + 3];
  }

  lemma WordIs(k: nat, b0: octet, b1: octet, b2: octet, b3: octet, n: nat, w: bv32)
    requires k < 16 && At(4 * k) == b0 && At(4 * k + 1) == b1 && At(4 * k + 2) == b2 && At(4 * k + 3) == b3
    requires n == Joined(b0, b1, b2, b3) && Bits(n) == w
    ensures |Block()| == 64 && WordAt(Block(), k) == w
  {
    hide *;
    WordIsAt(k);
  }

  lemma Words0()
    ensures |Block()| == 64
    ensures WordAt(Block(), 0) == 0x64636261
    ensures WordAt(Block(), 1) == 0x68676665
  {
    hide WordAt, Block, FromLittleEndian;
    WordIs(0, 97, 98, 99, 100, 0x64636261, 0x64636261);
    WordIs(1, 101, 102, 103, 104, 0x68676665, 0x68676665);
  }

  lemma Words1()
    ensures |Block()| == 64
    ensures WordAt(Block(), 2) == 0x6c6b6a69
    ensures WordAt(Block(), 3) == 0x706f6e6d
  {
    hide WordAt, Block, FromLittleEndian;
    WordIs(2, 105, 106, 107, 108, 0x6c6b6a69, 0x6c6b6a69);
    WordIs(3, 109, 110, 111, 112, 0x706f6e6d, 0x706f6e6d);
  }

  lemma Words2()
    ensures |Block()| == 64
    ensures WordAt(Block(), 4) == 0x74737271
    ensures WordAt(Block(), 5) == 0x78777675
  {
    hide WordAt, Block, FromLittleEndian;
    WordIs(4, 113, 114, 115, 116, 0x74737271, 0x74737271);
    WordIs(5, 117, 118, 119, 120, 0x78777675, 0x78777675);
  }

  lemma Words3()
    ensures |Block()| == 64
    ensures WordAt(Block(), 6) == 0x00807a79
    ensures WordAt(Block(), 14) == 0x000000d0
  {
    hide WordAt, Block, FromLittleEndian;
    WordIs(6, 121, 122, 128, 0, 0x00807a79, 0x00807a79);
    WordIs(14, 208, 0, 0, 0, 0x000000d0, 0x000000d0);
  }

  lemma NoBits()
    ensures Bits(0) == 0
  {
  }

  lemma ZeroWord(k: nat)
    requires 7 <= k < 16 && k != 14
    ensures |Block()| == 64 && WordAt(Block(), k) == 0
  {
    NoBits();
    hide WordAt, Block, FromLittleEndian, Bits;
    WordIs(k, 0, 0, 0, 0, 0, 0);
  }

  lemma BlockWords()
    ensures |Block()| == 64 && IsText(Words(Block()))
  {
    hide WordAt, Block;
    Words0();
    Words1();
    Words2();
    Words3();
    forall k | 7 <= k < 16 && k != 14 ensures WordAt(Block(), k) == 0 {
      ZeroWord(k);
    }
  }

  lemma LowFirst(n: nat, b: octet, m: nat, k: nat)
    requires n == b + 256 * m
    ensures LittleEndian(n, k + 1) == [b] + LittleEndian(m, k)
  {
  }

  lemma FourOf(n: nat, b0: octet, b1: octet, b2: octet, b3: octet)
    requires n == Joined(b0, b1, b2, b3)
    ensures LittleEndian(n, 4) == [b0, b1, b2, b3]
  {
    NoneLeft();
    hide LittleEndian;
    LowFirst(b3, b3, 0, 0);
    LowFirst(b2 + 256 * b3, b2, b3, 1);
    LowFirst(b1 + 256 * (b2 + 256 * b3), b1, b2 + 256 * b3, 2);
    LowFirst(n, b0, b1 + 256 * (b2 + 256 * b3), 3);
  }

  lemma NoneLeft()
    ensures LittleEndian(0, 0) == []
  {
  }

  lemma DigestOf()
    ensures DigestBytes(Digest(0xd7d3fcc3, 0x00e49261, 0x6c49fb7d, 0x3be167ca)) ==
            [0xC3, 0xFC, 0xD3, 0xD7, 0x61, 0x92, 0xE4, 0x00, 0x7D, 0xFB, 0x49, 0x6C, 0xCA, 0x67, 0xE1, 0x3B]
  {
    hide LittleEndian;
    FourOf(Word(0xd7d3fcc3), 0xC3, 0xFC, 0xD3, 0xD7);
    FourOf(Word(0x00e49261), 0x61, 0x92, 0xE4, 0x00);
    FourOf(Word(0x6c49fb7d), 0x7D, 0xFB, 0x49, 0x6C);
    FourOf(Word(0x3be167ca), 0xCA, 0x67, 0xE1, 0x3B);
    hide Word;
  }

  /** MD5 ("abcdefghijklmnopqrstuvwxyz") */
  lemma SmallLetters()
    ensures Hash(BLOCK, Letters()) ==
            [0xC3, 0xFC, 0xD3, 0xD7, 0x61, 0x92, 0xE4, 0x00, 0x7D, 0xFB, 0x49, 0x6C, 0xCA, 0x67, 0xE1, 0x3B]
  {
    hide *;
    PaddedLetters();
    BlockWords();
    StartIs();
    var s := Block();
    AllSteps(START, Words(s));
    LastSum();
    OneBlock(s);
    DigestOf();
    HashIs(Letters());
  }

  lemma StartIs()
    ensures START == Digest(0x67452301, 0xefcdab89, 0x98badcfe, 0x10325476)
  {
  }

  lemma HashIs(m: octets)
    ensures Hash(BLOCK, m) == DigestBytes(Fold(BLOCK, START, Padded(m)))
  {
  }

  lemma OneBlock(s: octets)
    requires |s| == 64
    ensures Fold(BLOCK, START, s) == Added(START, Steps(START, Words(s), 64))
  {
    hide Steps, Words, Added;
    assert s[..64] == s && s[64..] == [];
  }
}
