/** The S-box, the key expansion and the cipher on the examples of FIPS 197: what they are, apart from the formulas. */
module AesVectors {
  import opened Octets
  import opened Gf
  import opened Aes
  import opened Cipher
  import opened Rijndael

  // ---------- the powers of 3 ----------

  lemma Powers0()
    ensures Power(0) == 0x01 && Power(1) == 0x03 && Power(2) == 0x05 && Power(3) == 0x0F && Power(4) == 0x11
    ensures Power(5) == 0x33 && Power(6) == 0x55 && Power(7) == 0xFF && Power(8) == 0x1A && Power(9) == 0x2E
    ensures Power(10) == 0x72 && Power(11) == 0x96 && Power(12) == 0xA1 && Power(13) == 0xF8 && Power(14) == 0x13
    ensures Power(15) == 0x35
  {
    assert Power(1) == 0x03 by { PowerNext(1); } assert Power(2) == 0x05 by { PowerNext(2); }
    assert Power(3) == 0x0F by { PowerNext(3); } assert Power(4) == 0x11 by { PowerNext(4); }
    assert Power(5) == 0x33 by { PowerNext(5); } assert Power(6) == 0x55 by { PowerNext(6); }
    assert Power(7) == 0xFF by { PowerNext(7); } assert Power(8) == 0x1A by { PowerNext(8); }
    assert Power(9) == 0x2E by { PowerNext(9); } assert Power(10) == 0x72 by { PowerNext(10); }
    assert Power(11) == 0x96 by { PowerNext(11); } assert Power(12) == 0xA1 by { PowerNext(12); }
    assert Power(13) == 0xF8 by { PowerNext(13); } assert Power(14) == 0x13 by { PowerNext(14); }
    assert Power(15) == 0x35 by { PowerNext(15); }
  }

  lemma Powers1()
    ensures Power(16) == 0x5F && Power(17) == 0xE1 && Power(18) == 0x38 && Power(19) == 0x48 && Power(20) == 0xD8
    ensures Power(21) == 0x73 && Power(22) == 0x95 && Power(23) == 0xA4 && Power(24) == 0xF7 && Power(25) == 0x02
    ensures Power(26) == 0x06 && Power(27) == 0x0A && Power(28) == 0x1E && Power(29) == 0x22 && Power(30) == 0x66
    ensures Power(31) == 0xAA
  {
    Powers0();
    assert Power(16) == 0x5F by { PowerNext(16); } assert Power(17) == 0xE1 by { PowerNext(17); }
    assert Power(18) == 0x38 by { PowerNext(18); } assert Power(19) == 0x48 by { PowerNext(19); }
    assert Power(20) == 0xD8 by { PowerNext(20); } assert Power(21) == 0x73 by { PowerNext(21); }
    assert Power(22) == 0x95 by { PowerNext(22); } assert Power(23) == 0xA4 by { PowerNext(23); }
    assert Power(24) == 0xF7 by { PowerNext(24); } assert Power(25) == 0x02 by { PowerNext(25); }
    assert Power(26) == 0x06 by { PowerNext(26); } assert Power(27) == 0x0A by { PowerNext(27); }
    assert Power(28) == 0x1E by { PowerNext(28); } assert Power(29) == 0x22 by { PowerNext(29); }
    assert Power(30) == 0x66 by { PowerNext(30); } assert Power(31) == 0xAA by { PowerNext(31); }
  }

  lemma Powers2()
    ensures Power(32) == 0xE5 && Power(33) == 0x34 && Power(34) == 0x5C && Power(35) == 0xE4 && Power(36) == 0x37
    ensures Power(37) == 0x59 && Power(38) == 0xEB && Power(39) == 0x26 && Power(40) == 0x6A && Power(41) == 0xBE
    ensures Power(42) == 0xD9 && Power(43) == 0x70 && Power(44) == 0x90 && Power(45) == 0xAB && Power(46) == 0xE6
    ensures Power(47) == 0x31
  {
    Powers1();
    assert Power(32) == 0xE5 by { PowerNext(32); } assert Power(33) == 0x34 by { PowerNext(33); }
    assert Power(34) == 0x5C by { PowerNext(34); } assert Power(35) == 0xE4 by { PowerNext(35); }
    assert Power(36) == 0x37 by { PowerNext(36); } assert Power(37) == 0x59 by { PowerNext(37); }
    assert Power(38) == 0xEB by { PowerNext(38); } assert Power(39) == 0x26 by { PowerNext(39); }
    assert Power(40) == 0x6A by { PowerNext(40); } assert Power(41) == 0xBE by { PowerNext(41); }
    assert Power(42) == 0xD9 by { PowerNext(42); } assert Power(43) == 0x70 by { PowerNext(43); }
    assert Power(44) == 0x90 by { PowerNext(44); } assert Power(45) == 0xAB by { PowerNext(45); }
    assert Power(46) == 0xE6 by { PowerNext(46); } assert Power(47) == 0x31 by { PowerNext(47); }
  }

  lemma Powers3()
    ensures Power(48) == 0x53 && Power(49) == 0xF5 && Power(50) == 0x04 && Power(51) == 0x0C && Power(52) == 0x14
    ensures Power(53) == 0x3C && Power(54) == 0x44 && Power(55) == 0xCC && Power(56) == 0x4F && Power(57) == 0xD1
    ensures Power(58) == 0x68 && Power(59) == 0xB8 && Power(60) == 0xD3 && Power(61) == 0x6E && Power(62) == 0xB2
    ensures Power(63) == 0xCD
  {
    Powers2();
    assert Power(48) == 0x53 by { PowerNext(48); } assert Power(49) == 0xF5 by { PowerNext(49); }
    assert Power(50) == 0x04 by { PowerNext(50); } assert Power(51) == 0x0C by { PowerNext(51); }
    assert Power(52) == 0x14 by { PowerNext(52); } assert Power(53) == 0x3C by { PowerNext(53); }
    assert Power(54) == 0x44 by { PowerNext(54); } assert Power(55) == 0xCC by { PowerNext(55); }
    assert Power(56) == 0x4F by { PowerNext(56); } assert Power(57) == 0xD1 by { PowerNext(57); }
    assert Power(58) == 0x68 by { PowerNext(58); } assert Power(59) == 0xB8 by { PowerNext(59); }
    assert Power(60) == 0xD3 by { PowerNext(60); } assert Power(61) == 0x6E by { PowerNext(61); }
    assert Power(62) == 0xB2 by { PowerNext(62); } assert Power(63) == 0xCD by { PowerNext(63); }
  }

  lemma Powers4()
    ensures Power(64) == 0x4C && Power(65) == 0xD4 && Power(66) == 0x67 && Power(67) == 0xA9 && Power(68) == 0xE0
    ensures Power(69) == 0x3B && Power(70) == 0x4D && Power(71) == 0xD7 && Power(72) == 0x62 && Power(73) == 0xA6
    ensures Power(74) == 0xF1 && Power(75) == 0x08 && Power(76) == 0x18 && Power(77) == 0x28 && Power(78) == 0x78
    ensures Power(79) == 0x88
  {
    Powers3();
    assert Power(64) == 0x4C by { PowerNext(64); } assert Power(65) == 0xD4 by { PowerNext(65); }
    assert Power(66) == 0x67 by { PowerNext(66); } assert Power(67) == 0xA9 by { PowerNext(67); }
    assert Power(68) == 0xE0 by { PowerNext(68); } assert Power(69) == 0x3B by { PowerNext(69); }
    assert Power(70) == 0x4D by { PowerNext(70); } assert Power(71) == 0xD7 by { PowerNext(71); }
    assert Power(72) == 0x62 by { PowerNext(72); } assert Power(73) == 0xA6 by { PowerNext(73); }
    assert Power(74) == 0xF1 by { PowerNext(74); } assert Power(75) == 0x08 by { PowerNext(75); }
    assert Power(76) == 0x18 by { PowerNext(76); } assert Power(77) == 0x28 by { PowerNext(77); }
    assert Power(78) == 0x78 by { PowerNext(78); } assert Power(79) == 0x88 by { PowerNext(79); }
  }

  lemma Powers5()
    ensures Power(80) == 0x83 && Power(81) == 0x9E && Power(82) == 0xB9 && Power(83) == 0xD0 && Power(84) == 0x6B
    ensures Power(85) == 0xBD && Power(86) == 0xDC && Power(87) == 0x7F && Power(88) == 0x81 && Power(89) == 0x98
    ensures Power(90) == 0xB3 && Power(91) == 0xCE && Power(92) == 0x49 && Power(93) == 0xDB && Power(94) == 0x76
    ensures Power(95) == 0x9A
  {
    Powers4();
    assert Power(80) == 0x83 by { PowerNext(80); } assert Power(81) == 0x9E by { PowerNext(81); }
    assert Power(82) == 0xB9 by { PowerNext(82); } assert Power(83) == 0xD0 by { PowerNext(83); }
    assert Power(84) == 0x6B by { PowerNext(84); } assert Power(85) == 0xBD by { PowerNext(85); }
    assert Power(86) == 0xDC by { PowerNext(86); } assert Power(87) == 0x7F by { PowerNext(87); }
    assert Power(88) == 0x81 by { PowerNext(88); } assert Power(89) == 0x98 by { PowerNext(89); }
    assert Power(90) == 0xB3 by { PowerNext(90); } assert Power(91) == 0xCE by { PowerNext(91); }
    assert Power(92) == 0x49 by { PowerNext(92); } assert Power(93) == 0xDB by { PowerNext(93); }
    assert Power(94) == 0x76 by { PowerNext(94); } assert Power(95) == 0x9A by { PowerNext(95); }
  }

  lemma Powers6()
    ensures Power(96) == 0xB5 && Power(97) == 0xC4 && Power(98) == 0x57 && Power(99) == 0xF9 && Power(100) == 0x10
    ensures Power(101) == 0x30 && Power(102) == 0x50 && Power(103) == 0xF0 && Power(104) == 0x0B && Power(105) == 0x1D
    ensures Power(106) == 0x27 && Power(107) == 0x69 && Power(108) == 0xBB && Power(109) == 0xD6 && Power(110) == 0x61
    ensures Power(111) == 0xA3
  {
    Powers5();
    assert Power(96) == 0xB5 by { PowerNext(96); } assert Power(97) == 0xC4 by { PowerNext(97); }
    assert Power(98) == 0x57 by { PowerNext(98); } assert Power(99) == 0xF9 by { PowerNext(99); }
    assert Power(100) == 0x10 by { PowerNext(100); } assert Power(101) == 0x30 by { PowerNext(101); }
    assert Power(102) == 0x50 by { PowerNext(102); } assert Power(103) == 0xF0 by { PowerNext(103); }
    assert Power(104) == 0x0B by { PowerNext(104); } assert Power(105) == 0x1D by { PowerNext(105); }
    assert Power(106) == 0x27 by { PowerNext(106); } assert Power(107) == 0x69 by { PowerNext(107); }
    assert Power(108) == 0xBB by { PowerNext(108); } assert Power(109) == 0xD6 by { PowerNext(109); }
    assert Power(110) == 0x61 by { PowerNext(110); } assert Power(111) == 0xA3 by { PowerNext(111); }
  }

  lemma Powers7()
    ensures Power(112) == 0xFE && Power(113) == 0x19 && Power(114) == 0x2B && Power(115) == 0x7D && Power(116) == 0x87
    ensures Power(117) == 0x92 && Power(118) == 0xAD && Power(119) == 0xEC && Power(120) == 0x2F && Power(121) == 0x71
    ensures Power(122) == 0x93 && Power(123) == 0xAE && Power(124) == 0xE9 && Power(125) == 0x20 && Power(126) == 0x60
    ensures Power(127) == 0xA0
  {
    Powers6();
    assert Power(112) == 0xFE by { PowerNext(112); } assert Power(113) == 0x19 by { PowerNext(113); }
    assert Power(114) == 0x2B by { PowerNext(114); } assert Power(115) == 0x7D by { PowerNext(115); }
    assert Power(116) == 0x87 by { PowerNext(116); } assert Power(117) == 0x92 by { PowerNext(117); }
    assert Power(118) == 0xAD by { PowerNext(118); } assert Power(119) == 0xEC by { PowerNext(119); }
    assert Power(120) == 0x2F by { PowerNext(120); } assert Power(121) == 0x71 by { PowerNext(121); }
    assert Power(122) == 0x93 by { PowerNext(122); } assert Power(123) == 0xAE by { PowerNext(123); }
    assert Power(124) == 0xE9 by { PowerNext(124); } assert Power(125) == 0x20 by { PowerNext(125); }
    assert Power(126) == 0x60 by { PowerNext(126); } assert Power(127) == 0xA0 by { PowerNext(127); }
  }

  lemma Powers8()
    ensures Power(128) == 0xFB && Power(129) == 0x16 && Power(130) == 0x3A && Power(131) == 0x4E && Power(132) == 0xD2
    ensures Power(133) == 0x6D && Power(134) == 0xB7 && Power(135) == 0xC2 && Power(136) == 0x5D && Power(137) == 0xE7
    ensures Power(138) == 0x32 && Power(139) == 0x56 && Power(140) == 0xFA && Power(141) == 0x15 && Power(142) == 0x3F
    ensures Power(143) == 0x41
  {
    Powers7();
    assert Power(128) == 0xFB by { PowerNext(128); } assert Power(129) == 0x16 by { PowerNext(129); }
    assert Power(130) == 0x3A by { PowerNext(130); } assert Power(131) == 0x4E by { PowerNext(131); }
    assert Power(132) == 0xD2 by { PowerNext(132); } assert Power(133) == 0x6D by { PowerNext(133); }
    assert Power(134) == 0xB7 by { PowerNext(134); } assert Power(135) == 0xC2 by { PowerNext(135); }
    assert Power(136) == 0x5D by { PowerNext(136); } assert Power(137) == 0xE7 by { PowerNext(137); }
    assert Power(138) == 0x32 by { PowerNext(138); } assert Power(139) == 0x56 by { PowerNext(139); }
    assert Power(140) == 0xFA by { PowerNext(140); } assert Power(141) == 0x15 by { PowerNext(141); }
    assert Power(142) == 0x3F by { PowerNext(142); } assert Power(143) == 0x41 by { PowerNext(143); }
  }

  lemma Powers9()
    ensures Power(144) == 0xC3 && Power(145) == 0x5E && Power(146) == 0xE2 && Power(147) == 0x3D && Power(148) == 0x47
    ensures Power(149) == 0xC9 && Power(150) == 0x40 && Power(151) == 0xC0 && Power(152) == 0x5B && Power(153) == 0xED
    ensures Power(154) == 0x2C && Power(155) == 0x74 && Power(156) == 0x9C && Power(157) == 0xBF && Power(158) == 0xDA
    ensures Power(159) == 0x75
  {
    Powers8();
    assert Power(144) == 0xC3 by { PowerNext(144); } assert Power(145) == 0x5E by { PowerNext(145); }
    assert Power(146) == 0xE2 by { PowerNext(146); } assert Power(147) == 0x3D by { PowerNext(147); }
    assert Power(148) == 0x47 by { PowerNext(148); } assert Power(149) == 0xC9 by { PowerNext(149); }
    assert Power(150) == 0x40 by { PowerNext(150); } assert Power(151) == 0xC0 by { PowerNext(151); }
    assert Power(152) == 0x5B by { PowerNext(152); } assert Power(153) == 0xED by { PowerNext(153); }
    assert Power(154) == 0x2C by { PowerNext(154); } assert Power(155) == 0x74 by { PowerNext(155); }
    assert Power(156) == 0x9C by { PowerNext(156); } assert Power(157) == 0xBF by { PowerNext(157); }
    assert Power(158) == 0xDA by { PowerNext(158); } assert Power(159) == 0x75 by { PowerNext(159); }
  }

  lemma PowersA()
    ensures Power(160) == 0x9F && Power(161) == 0xBA && Power(162) == 0xD5 && Power(163) == 0x64 && Power(164) == 0xAC
    ensures Power(165) == 0xEF && Power(166) == 0x2A && Power(167) == 0x7E && Power(168) == 0x82 && Power(169) == 0x9D
    ensures Power(170) == 0xBC && Power(171) == 0xDF && Power(172) == 0x7A && Power(173) == 0x8E && Power(174) == 0x89
    ensures Power(175) == 0x80
  {
    Powers9();
    assert Power(160) == 0x9F by { PowerNext(160); } assert Power(161) == 0xBA by { PowerNext(161); }
    assert Power(162) == 0xD5 by { PowerNext(162); } assert Power(163) == 0x64 by { PowerNext(163); }
    assert Power(164) == 0xAC by { PowerNext(164); } assert Power(165) == 0xEF by { PowerNext(165); }
    assert Power(166) == 0x2A by { PowerNext(166); } assert Power(167) == 0x7E by { PowerNext(167); }
    assert Power(168) == 0x82 by { PowerNext(168); } assert Power(169) == 0x9D by { PowerNext(169); }
    assert Power(170) == 0xBC by { PowerNext(170); } assert Power(171) == 0xDF by { PowerNext(171); }
    assert Power(172) == 0x7A by { PowerNext(172); } assert Power(173) == 0x8E by { PowerNext(173); }
    assert Power(174) == 0x89 by { PowerNext(174); } assert Power(175) == 0x80 by { PowerNext(175); }
  }

  lemma PowersB()
    ensures Power(176) == 0x9B && Power(177) == 0xB6 && Power(178) == 0xC1 && Power(179) == 0x58 && Power(180) == 0xE8
    ensures Power(181) == 0x23 && Power(182) == 0x65 && Power(183) == 0xAF && Power(184) == 0xEA && Power(185) == 0x25
    ensures Power(186) == 0x6F && Power(187) == 0xB1 && Power(188) == 0xC8 && Power(189) == 0x43 && Power(190) == 0xC5
    ensures Power(191) == 0x54
  {
    PowersA();
    assert Power(176) == 0x9B by { PowerNext(176); } assert Power(177) == 0xB6 by { PowerNext(177); }
    assert Power(178) == 0xC1 by { PowerNext(178); } assert Power(179) == 0x58 by { PowerNext(179); }
    assert Power(180) == 0xE8 by { PowerNext(180); } assert Power(181) == 0x23 by { PowerNext(181); }
    assert Power(182) == 0x65 by { PowerNext(182); } assert Power(183) == 0xAF by { PowerNext(183); }
    assert Power(184) == 0xEA by { PowerNext(184); } assert Power(185) == 0x25 by { PowerNext(185); }
    assert Power(186) == 0x6F by { PowerNext(186); } assert Power(187) == 0xB1 by { PowerNext(187); }
    assert Power(188) == 0xC8 by { PowerNext(188); } assert Power(189) == 0x43 by { PowerNext(189); }
    assert Power(190) == 0xC5 by { PowerNext(190); } assert Power(191) == 0x54 by { PowerNext(191); }
  }

  lemma PowersC()
    ensures Power(192) == 0xFC && Power(193) == 0x1F && Power(194) == 0x21 && Power(195) == 0x63 && Power(196) == 0xA5
    ensures Power(197) == 0xF4 && Power(198) == 0x07 && Power(199) == 0x09 && Power(200) == 0x1B && Power(201) == 0x2D
    ensures Power(202) == 0x77 && Power(203) == 0x99 && Power(204) == 0xB0 && Power(205) == 0xCB && Power(206) == 0x46
    ensures Power(207) == 0xCA
  {
    PowersB();
    assert Power(192) == 0xFC by { PowerNext(192); } assert Power(193) == 0x1F by { PowerNext(193); }
    assert Power(194) == 0x21 by { PowerNext(194); } assert Power(195) == 0x63 by { PowerNext(195); }
    assert Power(196) == 0xA5 by { PowerNext(196); } assert Power(197) == 0xF4 by { PowerNext(197); }
    assert Power(198) == 0x07 by { PowerNext(198); } assert Power(199) == 0x09 by { PowerNext(199); }
    assert Power(200) == 0x1B by { PowerNext(200); } assert Power(201) == 0x2D by { PowerNext(201); }
    assert Power(202) == 0x77 by { PowerNext(202); } assert Power(203) == 0x99 by { PowerNext(203); }
    assert Power(204) == 0xB0 by { PowerNext(204); } assert Power(205) == 0xCB by { PowerNext(205); }
    assert Power(206) == 0x46 by { PowerNext(206); } assert Power(207) == 0xCA by { PowerNext(207); }
  }

  lemma PowersD()
    ensures Power(208) == 0x45 && Power(209) == 0xCF && Power(210) == 0x4A && Power(211) == 0xDE && Power(212) == 0x79
    ensures Power(213) == 0x8B && Power(214) == 0x86 && Power(215) == 0x91 && Power(216) == 0xA8 && Power(217) == 0xE3
    ensures Power(218) == 0x3E && Power(219) == 0x42 && Power(220) == 0xC6 && Power(221) == 0x51 && Power(222) == 0xF3
    ensures Power(223) == 0x0E
  {
    PowersC();
    assert Power(208) == 0x45 by { PowerNext(208); } assert Power(209) == 0xCF by { PowerNext(209); }
    assert Power(210) == 0x4A by { PowerNext(210); } assert Power(211) == 0xDE by { PowerNext(211); }
    assert Power(212) == 0x79 by { PowerNext(212); } assert Power(213) == 0x8B by { PowerNext(213); }
    assert Power(214) == 0x86 by { PowerNext(214); } assert Power(215) == 0x91 by { PowerNext(215); }
    assert Power(216) == 0xA8 by { PowerNext(216); } assert Power(217) == 0xE3 by { PowerNext(217); }
    assert Power(218) == 0x3E by { PowerNext(218); } assert Power(219) == 0x42 by { PowerNext(219); }
    assert Power(220) == 0xC6 by { PowerNext(220); } assert Power(221) == 0x51 by { PowerNext(221); }
    assert Power(222) == 0xF3 by { PowerNext(222); } assert Power(223) == 0x0E by { PowerNext(223); }
  }

  lemma PowersE()
    ensures Power(224) == 0x12 && Power(225) == 0x36 && Power(226) == 0x5A && Power(227) == 0xEE && Power(228) == 0x29
    ensures Power(229) == 0x7B && Power(230) == 0x8D && Power(231) == 0x8C && Power(232) == 0x8F && Power(233) == 0x8A
    ensures Power(234) == 0x85 && Power(235) == 0x94 && Power(236) == 0xA7 && Power(237) == 0xF2 && Power(238) == 0x0D
    ensures Power(239) == 0x17
  {
    PowersD();
    assert Power(224) == 0x12 by { PowerNext(224); } assert Power(225) == 0x36 by { PowerNext(225); }
    assert Power(226) == 0x5A by { PowerNext(226); } assert Power(227) == 0xEE by { PowerNext(227); }
    assert Power(228) == 0x29 by { PowerNext(228); } assert Power(229) == 0x7B by { PowerNext(229); }
    assert Power(230) == 0x8D by { PowerNext(230); } assert Power(231) == 0x8C by { PowerNext(231); }
    assert Power(232) == 0x8F by { PowerNext(232); } assert Power(233) == 0x8A by { PowerNext(233); }
    assert Power(234) == 0x85 by { PowerNext(234); } assert Power(235) == 0x94 by { PowerNext(235); }
    assert Power(236) == 0xA7 by { PowerNext(236); } assert Power(237) == 0xF2 by { PowerNext(237); }
    assert Power(238) == 0x0D by { PowerNext(238); } assert Power(239) == 0x17 by { PowerNext(239); }
  }

  lemma PowersF()
    ensures Power(240) == 0x39 && Power(241) == 0x4B && Power(242) == 0xDD && Power(243) == 0x7C && Power(244) == 0x84
    ensures Power(245) == 0x97 && Power(246) == 0xA2 && Power(247) == 0xFD && Power(248) == 0x1C && Power(249) == 0x24
    ensures Power(250) == 0x6C && Power(251) == 0xB4 && Power(252) == 0xC7 && Power(253) == 0x52 && Power(254) == 0xF6
    ensures Power(255) == 0x01
  {
    PowersE();
    assert Power(240) == 0x39 by { PowerNext(240); } assert Power(241) == 0x4B by { PowerNext(241); }
    assert Power(242) == 0xDD by { PowerNext(242); } assert Power(243) == 0x7C by { PowerNext(243); }
    assert Power(244) == 0x84 by { PowerNext(244); } assert Power(245) == 0x97 by { PowerNext(245); }
    assert Power(246) == 0xA2 by { PowerNext(246); } assert Power(247) == 0xFD by { PowerNext(247); }
    assert Power(248) == 0x1C by { PowerNext(248); } assert Power(249) == 0x24 by { PowerNext(249); }
    assert Power(250) == 0x6C by { PowerNext(250); } assert Power(251) == 0xB4 by { PowerNext(251); }
    assert Power(252) == 0xC7 by { PowerNext(252); } assert Power(253) == 0x52 by { PowerNext(253); }
    assert Power(254) == 0xF6 by { PowerNext(254); } assert Power(255) == 0x01 by { PowerNext(255); }
  }

  // ---------- figure 7 of FIPS 197, a lemma for each row ----------

  lemma Row0()
    ensures SBox(0x00) == 0x63 && SBox(0x01) == 0x7C && SBox(0x02) == 0x77 && SBox(0x03) == 0x7B && SBox(0x04) == 0xF2
    ensures SBox(0x05) == 0x6B && SBox(0x06) == 0x6F && SBox(0x07) == 0xC5 && SBox(0x08) == 0x30 && SBox(0x09) == 0x01
    ensures SBox(0x0A) == 0x67 && SBox(0x0B) == 0x2B && SBox(0x0C) == 0xFE && SBox(0x0D) == 0xD7 && SBox(0x0E) == 0xAB
    ensures SBox(0x0F) == 0x76
  {
    hide Power, Inverse;
    Powers0(); Powers1(); Powers2(); Powers3(); Powers4(); Powers5(); Powers6(); Powers7(); Powers8(); Powers9();
    PowersA(); PowersB(); PowersC(); PowersD(); PowersE(); PowersF();
    InverseZero();
    InverseOfPower(255); InverseOfPower(25); InverseOfPower(1); InverseOfPower(50); InverseOfPower(2);
    InverseOfPower(26); InverseOfPower(198); InverseOfPower(75); InverseOfPower(199); InverseOfPower(27);
    InverseOfPower(104); InverseOfPower(51); InverseOfPower(238); InverseOfPower(223); InverseOfPower(3);
  }

  lemma Row1()
    ensures SBox(0x10) == 0xCA && SBox(0x11) == 0x82 && SBox(0x12) == 0xC9 && SBox(0x13) == 0x7D && SBox(0x14) == 0xFA
    ensures SBox(0x15) == 0x59 && SBox(0x16) == 0x47 && SBox(0x17) == 0xF0 && SBox(0x18) == 0xAD && SBox(0x19) == 0xD4
    ensures SBox(0x1A) == 0xA2 && SBox(0x1B) == 0xAF && SBox(0x1C) == 0x9C && SBox(0x1D) == 0xA4 && SBox(0x1E) == 0x72
    ensures SBox(0x1F) == 0xC0
  {
    hide Power, Inverse;
    Powers0(); Powers1(); Powers2(); Powers3(); Powers4(); Powers5(); Powers6(); Powers7(); Powers8(); Powers9();
    PowersA(); PowersB(); PowersC(); PowersD(); PowersE(); PowersF();
    InverseOfPower(100); InverseOfPower(4); InverseOfPower(224); InverseOfPower(14); InverseOfPower(52);
    InverseOfPower(141); InverseOfPower(129); InverseOfPower(239); InverseOfPower(76); InverseOfPower(113);
    InverseOfPower(8); InverseOfPower(200); InverseOfPower(248); InverseOfPower(105); InverseOfPower(28);
    InverseOfPower(193);
  }

  lemma Row2()
    ensures SBox(0x20) == 0xB7 && SBox(0x21) == 0xFD && SBox(0x22) == 0x93 && SBox(0x23) == 0x26 && SBox(0x24) == 0x36
    ensures SBox(0x25) == 0x3F && SBox(0x26) == 0xF7 && SBox(0x27) == 0xCC && SBox(0x28) == 0x34 && SBox(0x29) == 0xA5
    ensures SBox(0x2A) == 0xE5 && SBox(0x2B) == 0xF1 && SBox(0x2C) == 0x71 && SBox(0x2D) == 0xD8 && SBox(0x2E) == 0x31
    ensures SBox(0x2F) == 0x15
  {
    hide Power, Inverse;
    Powers0(); Powers1(); Powers2(); Powers3(); Powers4(); Powers5(); Powers6(); Powers7(); Powers8(); Powers9();
    PowersA(); PowersB(); PowersC(); PowersD(); PowersE(); PowersF();
    InverseOfPower(125); InverseOfPower(194); InverseOfPower(29); InverseOfPower(181); InverseOfPower(249);
    InverseOfPower(185); InverseOfPower(39); InverseOfPower(106); InverseOfPower(77); InverseOfPower(228);
    InverseOfPower(166); InverseOfPower(114); InverseOfPower(154); InverseOfPower(201); InverseOfPower(9);
    InverseOfPower(120);
  }

  lemma Row3()
    ensures SBox(0x30) == 0x04 && SBox(0x31) == 0xC7 && SBox(0x32) == 0x23 && SBox(0x33) == 0xC3 && SBox(0x34) == 0x18
    ensures SBox(0x35) == 0x96 && SBox(0x36) == 0x05 && SBox(0x37) == 0x9A && SBox(0x38) == 0x07 && SBox(0x39) == 0x12
    ensures SBox(0x3A) == 0x80 && SBox(0x3B) == 0xE2 && SBox(0x3C) == 0xEB && SBox(0x3D) == 0x27 && SBox(0x3E) == 0xB2
    ensures SBox(0x3F) == 0x75
  {
    hide Power, Inverse;
    Powers0(); Powers1(); Powers2(); Powers3(); Powers4(); Powers5(); Powers6(); Powers7(); Powers8(); Powers9();
    PowersA(); PowersB(); PowersC(); PowersD(); PowersE(); PowersF();
    InverseOfPower(101); InverseOfPower(47); InverseOfPower(138); InverseOfPower(5); InverseOfPower(33);
    InverseOfPower(15); InverseOfPower(225); InverseOfPower(36); InverseOfPower(18); InverseOfPower(240);
    InverseOfPower(130); InverseOfPower(69); InverseOfPower(53); InverseOfPower(147); InverseOfPower(218);
    InverseOfPower(142);
  }

  lemma Row4()
    ensures SBox(0x40) == 0x09 && SBox(0x41) == 0x83 && SBox(0x42) == 0x2C && SBox(0x43) == 0x1A && SBox(0x44) == 0x1B
    ensures SBox(0x45) == 0x6E && SBox(0x46) == 0x5A && SBox(0x47) == 0xA0 && SBox(0x48) == 0x52 && SBox(0x49) == 0x3B
    ensures SBox(0x4A) == 0xD6 && SBox(0x4B) == 0xB3 && SBox(0x4C) == 0x29 && SBox(0x4D) == 0xE3 && SBox(0x4E) == 0x2F
    ensures SBox(0x4F) == 0x84
  {
    hide Power, Inverse;
    Powers0(); Powers1(); Powers2(); Powers3(); Powers4(); Powers5(); Powers6(); Powers7(); Powers8(); Powers9();
    PowersA(); PowersB(); PowersC(); PowersD(); PowersE(); PowersF();
    InverseOfPower(150); InverseOfPower(143); InverseOfPower(219); InverseOfPower(189); InverseOfPower(54);
    InverseOfPower(208); InverseOfPower(206); InverseOfPower(148); InverseOfPower(19); InverseOfPower(92);
    InverseOfPower(210); InverseOfPower(241); InverseOfPower(64); InverseOfPower(70); InverseOfPower(131);
    InverseOfPower(56);
  }

  lemma Row5()
    ensures SBox(0x50) == 0x53 && SBox(0x51) == 0xD1 && SBox(0x52) == 0x00 && SBox(0x53) == 0xED && SBox(0x54) == 0x20
    ensures SBox(0x55) == 0xFC && SBox(0x56) == 0xB1 && SBox(0x57) == 0x5B && SBox(0x58) == 0x6A && SBox(0x59) == 0xCB
    ensures SBox(0x5A) == 0xBE && SBox(0x5B) == 0x39 && SBox(0x5C) == 0x4A && SBox(0x5D) == 0x4C && SBox(0x5E) == 0x58
    ensures SBox(0x5F) == 0xCF
  {
    hide Power, Inverse;
    Powers0(); Powers1(); Powers2(); Powers3(); Powers4(); Powers5(); Powers6(); Powers7(); Powers8(); Powers9();
    PowersA(); PowersB(); PowersC(); PowersD(); PowersE(); PowersF();
    InverseOfPower(102); InverseOfPower(221); InverseOfPower(253); InverseOfPower(48); InverseOfPower(191);
    InverseOfPower(6); InverseOfPower(139); InverseOfPower(98); InverseOfPower(179); InverseOfPower(37);
    InverseOfPower(226); InverseOfPower(152); InverseOfPower(34); InverseOfPower(136); InverseOfPower(145);
    InverseOfPower(16);
  }

  lemma Row6()
    ensures SBox(0x60) == 0xD0 && SBox(0x61) == 0xEF && SBox(0x62) == 0xAA && SBox(0x63) == 0xFB && SBox(0x64) == 0x43
    ensures SBox(0x65) == 0x4D && SBox(0x66) == 0x33 && SBox(0x67) == 0x85 && SBox(0x68) == 0x45 && SBox(0x69) == 0xF9
    ensures SBox(0x6A) == 0x02 && SBox(0x6B) == 0x7F && SBox(0x6C) == 0x50 && SBox(0x6D) == 0x3C && SBox(0x6E) == 0x9F
    ensures SBox(0x6F) == 0xA8
  {
    hide Power, Inverse;
    Powers0(); Powers1(); Powers2(); Powers3(); Powers4(); Powers5(); Powers6(); Powers7(); Powers8(); Powers9();
    PowersA(); PowersB(); PowersC(); PowersD(); PowersE(); PowersF();
    InverseOfPower(126); InverseOfPower(110); InverseOfPower(72); InverseOfPower(195); InverseOfPower(163);
    InverseOfPower(182); InverseOfPower(30); InverseOfPower(66); InverseOfPower(58); InverseOfPower(107);
    InverseOfPower(40); InverseOfPower(84); InverseOfPower(250); InverseOfPower(133); InverseOfPower(61);
    InverseOfPower(186);
  }

  lemma Row7()
    ensures SBox(0x70) == 0x51 && SBox(0x71) == 0xA3 && SBox(0x72) == 0x40 && SBox(0x73) == 0x8F && SBox(0x74) == 0x92
    ensures SBox(0x75) == 0x9D && SBox(0x76) == 0x38 && SBox(0x77) == 0xF5 && SBox(0x78) == 0xBC && SBox(0x79) == 0xB6
    ensures SBox(0x7A) == 0xDA && SBox(0x7B) == 0x21 && SBox(0x7C) == 0x10 && SBox(0x7D) == 0xFF && SBox(0x7E) == 0xF3
    ensures SBox(0x7F) == 0xD2
  {
    hide Power, Inverse;
    Powers0(); Powers1(); Powers2(); Powers3(); Powers4(); Powers5(); Powers6(); Powers7(); Powers8(); Powers9();
    PowersA(); PowersB(); PowersC(); PowersD(); PowersE(); PowersF();
    InverseOfPower(43); InverseOfPower(121); InverseOfPower(10); InverseOfPower(21); InverseOfPower(155);
    InverseOfPower(159); InverseOfPower(94); InverseOfPower(202); InverseOfPower(78); InverseOfPower(212);
    InverseOfPower(172); InverseOfPower(229); InverseOfPower(243); InverseOfPower(115); InverseOfPower(167);
    InverseOfPower(87);
  }

  lemma Row8()
    ensures SBox(0x80) == 0xCD && SBox(0x81) == 0x0C && SBox(0x82) == 0x13 && SBox(0x83) == 0xEC && SBox(0x84) == 0x5F
    ensures SBox(0x85) == 0x97 && SBox(0x86) == 0x44 && SBox(0x87) == 0x17 && SBox(0x88) == 0xC4 && SBox(0x89) == 0xA7
    ensures SBox(0x8A) == 0x7E && SBox(0x8B) == 0x3D && SBox(0x8C) == 0x64 && SBox(0x8D) == 0x5D && SBox(0x8E) == 0x19
    ensures SBox(0x8F) == 0x73
  {
    hide Power, Inverse;
    Powers0(); Powers1(); Powers2(); Powers3(); Powers4(); Powers5(); Powers6(); Powers7(); Powers8(); Powers9();
    PowersA(); PowersB(); PowersC(); PowersD(); PowersE(); PowersF();
    InverseOfPower(175); InverseOfPower(88); InverseOfPower(168); InverseOfPower(80); InverseOfPower(244);
    InverseOfPower(234); InverseOfPower(214); InverseOfPower(116); InverseOfPower(79); InverseOfPower(174);
    InverseOfPower(233); InverseOfPower(213); InverseOfPower(231); InverseOfPower(230); InverseOfPower(173);
    InverseOfPower(232);
  }

  lemma Row9()
    ensures SBox(0x90) == 0x60 && SBox(0x91) == 0x81 && SBox(0x92) == 0x4F && SBox(0x93) == 0xDC && SBox(0x94) == 0x22
    ensures SBox(0x95) == 0x2A && SBox(0x96) == 0x90 && SBox(0x97) == 0x88 && SBox(0x98) == 0x46 && SBox(0x99) == 0xEE
    ensures SBox(0x9A) == 0xB8 && SBox(0x9B) == 0x14 && SBox(0x9C) == 0xDE && SBox(0x9D) == 0x5E && SBox(0x9E) == 0x0B
    ensures SBox(0x9F) == 0xDB
  {
    hide Power, Inverse;
    Powers0(); Powers1(); Powers2(); Powers3(); Powers4(); Powers5(); Powers6(); Powers7(); Powers8(); Powers9();
    PowersA(); PowersB(); PowersC(); PowersD(); PowersE(); PowersF();
    InverseOfPower(44); InverseOfPower(215); InverseOfPower(117); InverseOfPower(122); InverseOfPower(235);
    InverseOfPower(22); InverseOfPower(11); InverseOfPower(245); InverseOfPower(89); InverseOfPower(203);
    InverseOfPower(95); InverseOfPower(176); InverseOfPower(156); InverseOfPower(169); InverseOfPower(81);
    InverseOfPower(160);
  }

  lemma RowA()
    ensures SBox(0xA0) == 0xE0 && SBox(0xA1) == 0x32 && SBox(0xA2) == 0x3A && SBox(0xA3) == 0x0A && SBox(0xA4) == 0x49
    ensures SBox(0xA5) == 0x06 && SBox(0xA6) == 0x24 && SBox(0xA7) == 0x5C && SBox(0xA8) == 0xC2 && SBox(0xA9) == 0xD3
    ensures SBox(0xAA) == 0xAC && SBox(0xAB) == 0x62 && SBox(0xAC) == 0x91 && SBox(0xAD) == 0x95 && SBox(0xAE) == 0xE4
    ensures SBox(0xAF) == 0x79
  {
    hide Power, Inverse;
    Powers0(); Powers1(); Powers2(); Powers3(); Powers4(); Powers5(); Powers6(); Powers7(); Powers8(); Powers9();
    PowersA(); PowersB(); PowersC(); PowersD(); PowersE(); PowersF();
    InverseOfPower(127); InverseOfPower(12); InverseOfPower(246); InverseOfPower(111); InverseOfPower(23);
    InverseOfPower(196); InverseOfPower(73); InverseOfPower(236); InverseOfPower(216); InverseOfPower(67);
    InverseOfPower(31); InverseOfPower(45); InverseOfPower(164); InverseOfPower(118); InverseOfPower(123);
    InverseOfPower(183);
  }

  lemma RowB()
    ensures SBox(0xB0) == 0xE7 && SBox(0xB1) == 0xC8 && SBox(0xB2) == 0x37 && SBox(0xB3) == 0x6D && SBox(0xB4) == 0x8D
    ensures SBox(0xB5) == 0xD5 && SBox(0xB6) == 0x4E && SBox(0xB7) == 0xA9 && SBox(0xB8) == 0x6C && SBox(0xB9) == 0x56
    ensures SBox(0xBA) == 0xF4 && SBox(0xBB) == 0xEA && SBox(0xBC) == 0x65 && SBox(0xBD) == 0x7A && SBox(0xBE) == 0xAE
    ensures SBox(0xBF) == 0x08
  {
    hide Power, Inverse;
    Powers0(); Powers1(); Powers2(); Powers3(); Powers4(); Powers5(); Powers6(); Powers7(); Powers8(); Powers9();
    PowersA(); PowersB(); PowersC(); PowersD(); PowersE(); PowersF();
    InverseOfPower(204); InverseOfPower(187); InverseOfPower(62); InverseOfPower(90); InverseOfPower(251);
    InverseOfPower(96); InverseOfPower(177); InverseOfPower(134); InverseOfPower(59); InverseOfPower(82);
    InverseOfPower(161); InverseOfPower(108); InverseOfPower(170); InverseOfPower(85); InverseOfPower(41);
    InverseOfPower(157);
  }

  lemma RowC()
    ensures SBox(0xC0) == 0xBA && SBox(0xC1) == 0x78 && SBox(0xC2) == 0x25 && SBox(0xC3) == 0x2E && SBox(0xC4) == 0x1C
    ensures SBox(0xC5) == 0xA6 && SBox(0xC6) == 0xB4 && SBox(0xC7) == 0xC6 && SBox(0xC8) == 0xE8 && SBox(0xC9) == 0xDD
    ensures SBox(0xCA) == 0x74 && SBox(0xCB) == 0x1F && SBox(0xCC) == 0x4B && SBox(0xCD) == 0xBD && SBox(0xCE) == 0x8B
    ensures SBox(0xCF) == 0x8A
  {
    hide Power, Inverse;
    Powers0(); Powers1(); Powers2(); Powers3(); Powers4(); Powers5(); Powers6(); Powers7(); Powers8(); Powers9();
    PowersA(); PowersB(); PowersC(); PowersD(); PowersE(); PowersF();
    InverseOfPower(151); InverseOfPower(178); InverseOfPower(135); InverseOfPower(144); InverseOfPower(97);
    InverseOfPower(190); InverseOfPower(220); InverseOfPower(252); InverseOfPower(188); InverseOfPower(149);
    InverseOfPower(207); InverseOfPower(205); InverseOfPower(55); InverseOfPower(63); InverseOfPower(91);
    InverseOfPower(209);
  }

  lemma RowD()
    ensures SBox(0xD0) == 0x70 && SBox(0xD1) == 0x3E && SBox(0xD2) == 0xB5 && SBox(0xD3) == 0x66 && SBox(0xD4) == 0x48
    ensures SBox(0xD5) == 0x03 && SBox(0xD6) == 0xF6 && SBox(0xD7) == 0x0E && SBox(0xD8) == 0x61 && SBox(0xD9) == 0x35
    ensures SBox(0xDA) == 0x57 && SBox(0xDB) == 0xB9 && SBox(0xDC) == 0x86 && SBox(0xDD) == 0xC1 && SBox(0xDE) == 0x1D
    ensures SBox(0xDF) == 0x9E
  {
    hide Power, Inverse;
    Powers0(); Powers1(); Powers2(); Powers3(); Powers4(); Powers5(); Powers6(); Powers7(); Powers8(); Powers9();
    PowersA(); PowersB(); PowersC(); PowersD(); PowersE(); PowersF();
    InverseOfPower(83); InverseOfPower(57); InverseOfPower(132); InverseOfPower(60); InverseOfPower(65);
    InverseOfPower(162); InverseOfPower(109); InverseOfPower(71); InverseOfPower(20); InverseOfPower(42);
    InverseOfPower(158); InverseOfPower(93); InverseOfPower(86); InverseOfPower(242); InverseOfPower(211);
    InverseOfPower(171);
  }

  lemma RowE()
    ensures SBox(0xE0) == 0xE1 && SBox(0xE1) == 0xF8 && SBox(0xE2) == 0x98 && SBox(0xE3) == 0x11 && SBox(0xE4) == 0x69
    ensures SBox(0xE5) == 0xD9 && SBox(0xE6) == 0x8E && SBox(0xE7) == 0x94 && SBox(0xE8) == 0x9B && SBox(0xE9) == 0x1E
    ensures SBox(0xEA) == 0x87 && SBox(0xEB) == 0xE9 && SBox(0xEC) == 0xCE && SBox(0xED) == 0x55 && SBox(0xEE) == 0x28
    ensures SBox(0xEF) == 0xDF
  {
    hide Power, Inverse;
    Powers0(); Powers1(); Powers2(); Powers3(); Powers4(); Powers5(); Powers6(); Powers7(); Powers8(); Powers9();
    PowersA(); PowersB(); PowersC(); PowersD(); PowersE(); PowersF();
    InverseOfPower(68); InverseOfPower(17); InverseOfPower(146); InverseOfPower(217); InverseOfPower(35);
    InverseOfPower(32); InverseOfPower(46); InverseOfPower(137); InverseOfPower(180); InverseOfPower(124);
    InverseOfPower(184); InverseOfPower(38); InverseOfPower(119); InverseOfPower(153); InverseOfPower(227);
    InverseOfPower(165);
  }

  lemma RowF()
    ensures SBox(0xF0) == 0x8C && SBox(0xF1) == 0xA1 && SBox(0xF2) == 0x89 && SBox(0xF3) == 0x0D && SBox(0xF4) == 0xBF
    ensures SBox(0xF5) == 0xE6 && SBox(0xF6) == 0x42 && SBox(0xF7) == 0x68 && SBox(0xF8) == 0x41 && SBox(0xF9) == 0x99
    ensures SBox(0xFA) == 0x2D && SBox(0xFB) == 0x0F && SBox(0xFC) == 0xB0 && SBox(0xFD) == 0x54 && SBox(0xFE) == 0xBB
    ensures SBox(0xFF) == 0x16
  {
    hide Power, Inverse;
    Powers0(); Powers1(); Powers2(); Powers3(); Powers4(); Powers5(); Powers6(); Powers7(); Powers8(); Powers9();
    PowersA(); PowersB(); PowersC(); PowersD(); PowersE(); PowersF();
    InverseOfPower(103); InverseOfPower(74); InverseOfPower(237); InverseOfPower(222); InverseOfPower(197);
    InverseOfPower(49); InverseOfPower(254); InverseOfPower(24); InverseOfPower(13); InverseOfPower(99);
    InverseOfPower(140); InverseOfPower(128); InverseOfPower(192); InverseOfPower(247); InverseOfPower(112);
    InverseOfPower(7);
  }

  // ---------- appendix A.1: the expansion of a key ----------

  /** The first ten round constants. */
  lemma RoundConstants()
    ensures Rcon(0) == 1 && Rcon(1) == 2 && Rcon(2) == 4 && Rcon(3) == 8 && Rcon(4) == 0x10
    ensures Rcon(5) == 0x20 && Rcon(6) == 0x40 && Rcon(7) == 0x80 && Rcon(8) == 0x1B && Rcon(9) == 0x36
  {
    assert Xtimes(1, 1) == 0x02;
    assert Xtimes(1, 2) == 0x04;
    assert Xtimes(1, 3) == 0x08;
    assert Xtimes(1, 4) == 0x10;
    assert Xtimes(1, 5) == 0x20;
    assert Xtimes(1, 6) == 0x40;
    assert Xtimes(1, 7) == 0x80;
    assert Xtimes(1, 8) == 0x1B;
    assert Xtimes(1, 9) == 0x36;
  }

  function Key(): (k: seq<byte>)
    ensures |k| == 16
  {
    [0x2B, 0x7E, 0x15, 0x16, 0x28, 0xAE, 0xD2, 0xA6] + [0xAB, 0xF7, 0x15, 0x88, 0x09, 0xCF, 0x4F, 0x3C]
  }

  /** The schedule of that key. */
  ghost predicate Expanded(w: seq<word>, k: seq<byte>) {
    |w| == 44 && |k| == 16 && forall i :: 0 <= i < 44 ==> w[i] == ScheduleWord(k, 4, i)
  }

  lemma NextGroup(w: seq<word>, key: seq<byte>, k: nat)
    requires |w| == 44 && Expanded(w, key) && k < 10
    ensures w[4 * k + 4] == Xd(Xd(w[4 * k], SubWord(Rotl24(w[4 * k + 3]))), Rcon(k))
    ensures w[4 * k + 5] == Xd(w[4 * k + 1], w[4 * k + 4]) && w[4 * k + 6] == Xd(w[4 * k + 2], w[4 * k + 5])
    ensures w[4 * k + 7] == Xd(w[4 * k + 3], w[4 * k + 6])
  {
    hide Xd, SubWord, Rotl24, Rcon, ScheduleWord;
    ScheduleAt(key, 4, k, 0);
    ScheduleAt(key, 4, k, 1);
    ScheduleAt(key, 4, k, 2);
    ScheduleAt(key, 4, k, 3);
  }

  lemma FirstWord(k: seq<byte>, i: nat)
    requires i < 4 && |k| == 16
    ensures ScheduleWord(k, 4, i) == Pack(k[4 * i], k[4 * i + 1], k[4 * i + 2], k[4 * i + 3])
  {
  }

  lemma Group0(w: seq<word>, k: seq<byte>)
    requires |w| == 44 && Expanded(w, k) && k == Key()
    ensures w[0] == 0x16157E2B && w[1] == 0xA6D2AE28 && w[2] == 0x8815F7AB && w[3] == 0x3C4FCF09
  {
    hide ScheduleWord;
    FirstWord(k, 0);
    FirstWord(k, 1);
    FirstWord(k, 2);
    FirstWord(k, 3);
  }

  lemma Group1(w: seq<word>, k: seq<byte>)
    requires |w| == 44 && Expanded(w, k) && k == Key()
    ensures w[4] == 0x17FEFAA0 && w[5] == 0xB12C5488 && w[6] == 0x3939A323 && w[7] == 0x05766C2A
  {
    hide SBox, Expanded, Rcon;
    Group0(w, k);
    Row0(); Row3(); Row4(); RowC();
    assert SubWord(Rotl24(0x3C4FCF09)) == 0x01EB848A;
    RoundConstants();
    NextGroup(w, k, 0);
  }

  lemma Group2(w: seq<word>, k: seq<byte>)
    requires |w| == 44 && Expanded(w, k) && k == Key()
    ensures w[8] == 0xF295C2F2 && w[9] == 0x43B9967A && w[10] == 0x7A803559 && w[11] == 0x7FF65973
  {
    hide SBox, Expanded, Rcon;
    Group1(w, k);
    Row0(); Row2(); Row6(); Row7();
    assert SubWord(Rotl24(0x05766C2A)) == 0xE56B3850;
    RoundConstants();
    NextGroup(w, k, 1);
  }

  lemma Group3(w: seq<word>, k: seq<byte>)
    requires |w| == 44 && Expanded(w, k) && k == Key()
    ensures w[12] == 0x7D47803D && w[13] == 0x3EFE1647 && w[14] == 0x447E231E && w[15] == 0x3B887A6D
  {
    hide SBox, Expanded, Rcon;
    Group2(w, k);
    Row5(); Row7(); RowF();
    assert SubWord(Rotl24(0x7FF65973)) == 0x8FD242CB;
    RoundConstants();
    NextGroup(w, k, 2);
  }

  lemma Group4(w: seq<word>, k: seq<byte>)
    requires |w| == 44 && Expanded(w, k) && k == Key()
    ensures w[16] == 0x41A544EF && w[17] == 0x7F5B52A8 && w[18] == 0x3B2571B6 && w[19] == 0x00AD0BDB
  {
    hide SBox, Expanded, Rcon;
    Group3(w, k);
    Row3(); Row6(); Row7(); Row8();
    assert SubWord(Rotl24(0x3B887A6D)) == 0x3CE2C4DA;
    RoundConstants();
    NextGroup(w, k, 3);
  }

  lemma Group5(w: seq<word>, k: seq<byte>)
    requires |w| == 44 && Expanded(w, k) && k == Key()
    ensures w[20] == 0xF8C6D1D4 && w[21] == 0x879D837C && w[22] == 0xBCB8F2CA && w[23] == 0xBC15F911
  {
    hide SBox, Expanded, Rcon;
    Group4(w, k);
    Row0(); RowA(); RowD();
    assert SubWord(Rotl24(0x00AD0BDB)) == 0xB963952B;
    RoundConstants();
    NextGroup(w, k, 4);
  }

  lemma Group6(w: seq<word>, k: seq<byte>)
    requires |w| == 44 && Expanded(w, k) && k == Key()
    ensures w[24] == 0x7AA3886D && w[25] == 0xFD3E0B11 && w[26] == 0x4186F9DB && w[27] == 0xFD9300CA
  {
    hide SBox, Expanded, Rcon;
    Group5(w, k);
    Row1(); RowB(); RowF();
    assert SubWord(Rotl24(0xBC15F911)) == 0x82655999;
    RoundConstants();
    NextGroup(w, k, 5);
  }

  lemma Group7(w: seq<word>, k: seq<byte>)
    requires |w| == 44 && Expanded(w, k) && k == Key()
    ensures w[28] == 0x0EF7544E && w[29] == 0xF3C95F5F && w[30] == 0xB24FA684 && w[31] == 0x4FDCA64E
  {
    hide SBox, Expanded, Rcon;
    Group6(w, k);
    Row0(); Row9(); RowC(); RowF();
    assert SubWord(Rotl24(0xFD9300CA)) == 0x7454DC63;
    RoundConstants();
    NextGroup(w, k, 6);
  }

  lemma Group8(w: seq<word>, k: seq<byte>)
    requires |w| == 44 && Expanded(w, k) && k == Key()
    ensures w[32] == 0x2173D2EA && w[33] == 0xD2BA8DB5 && w[34] == 0x60F52B31 && w[35] == 0x2F298D7F
  {
    hide SBox, Expanded, Rcon;
    Group7(w, k);
    Row4(); RowA(); RowD();
    assert SubWord(Rotl24(0x4FDCA64E)) == 0x2F848624;
    RoundConstants();
    NextGroup(w, k, 7);
  }

  lemma Group9(w: seq<word>, k: seq<byte>)
    requires |w| == 44 && Expanded(w, k) && k == Key()
    ensures w[36] == 0xF36677AC && w[37] == 0x21DCFA19 && w[38] == 0x4129D128 && w[39] == 0x6E005C57
  {
    hide SBox, Expanded, Rcon;
    Group8(w, k);
    Row2(); Row7(); Row8();
    assert SubWord(Rotl24(0x2F298D7F)) == 0xD215A55D;
    RoundConstants();
    NextGroup(w, k, 8);
  }

  lemma Group10(w: seq<word>, k: seq<byte>)
    requires |w| == 44 && Expanded(w, k) && k == Key()
    ensures w[40] == 0xA8F914D0 && w[41] == 0x8925EEC9 && w[42] == 0xC80C3FE1 && w[43] == 0xA60C63B6
  {
    hide SBox, Expanded, Rcon;
    Group9(w, k);
    Row0(); Row5(); Row6();
    assert SubWord(Rotl24(0x6E005C57)) == 0x5B9F634A;
    RoundConstants();
    NextGroup(w, k, 9);
  }

  /** The key schedule of appendix A.1, from its first words to its last. */
  lemma ExpandedKey(w: seq<word>, k: seq<byte>)
    requires |w| == 44 && Expanded(w, k) && k == Key()
    ensures w[4] == Pack(0xA0, 0xFA, 0xFE, 0x17) && w[5] == Pack(0x88, 0x54, 0x2C, 0xB1)
    ensures w[6] == Pack(0x23, 0xA3, 0x39, 0x39) && w[7] == Pack(0x2A, 0x6C, 0x76, 0x05)
    ensures w[40] == Pack(0xD0, 0x14, 0xF9, 0xA8) && w[41] == Pack(0xC9, 0xEE, 0x25, 0x89)
    ensures w[42] == Pack(0xE1, 0x3F, 0x0C, 0xC8) && w[43] == Pack(0xB6, 0x63, 0x0C, 0xA6)
  {
    hide Expanded;
    Group1(w, k);
    Group10(w, k);
  }

  // ---------- appendix B: a block under that key ----------

  /** A column of the state after ShiftRows. */
  function Shift(a: word, b: word, c: word, d: word): word {
    Pack(B0(a), B1(b), B2(c), B3(d))
  }

  lemma SubShift4(x: State)
    requires |x| == 4
    ensures SubShift(x) == [SubWord(Shift(x[0], x[1], x[2], x[3])), SubWord(Shift(x[1], x[2], x[3], x[0])),
                            SubWord(Shift(x[2], x[3], x[0], x[1])), SubWord(Shift(x[3], x[0], x[1], x[2]))]
  {
    hide SBox, Pack, B0, B1, B2, B3, SubShift;
    forall j | 0 <= j < 4
      ensures SubShift(x)[j] == SubWord(Shift(x[j], x[(j + 1) % 4], x[(j + 2) % 4], x[(j + 3) % 4]))
    {
      SubShiftAt(x, j);
      BytesOfPack(B0(x[j]), B1(x[(j + 1) % 4]), B2(x[(j + 2) % 4]), B3(x[(j + 3) % 4]));
    }
  }

  /** MixColumns by doubling alone. */
  function Mixed(w: word): word {
    var a, b, c, d := B0(w), B1(w), B2(w), B3(w);
    Pack(Xb(Xb(Xb(Xtime(a), Xb(b, Xtime(b))), c), d), Xb(Xb(Xb(a, Xtime(b)), Xb(c, Xtime(c))), d),
         Xb(Xb(Xb(a, b), Xtime(c)), Xb(d, Xtime(d))), Xb(Xb(Xb(Xb(a, Xtime(a)), b), c), Xtime(d)))
  }

  lemma MixIs(w: word)
    ensures MixCol(w) == Mixed(w)
  {
    hide Pack, Xb, Xtime, Mul, B0, B1, B2, B3;
    MulTwoThree(B0(w));
    MulTwoThree(B1(w));
    MulTwoThree(B2(w));
    MulTwoThree(B3(w));
  }

  lemma NextRound(s: State, w: seq<word>, r: nat)
    requires Keys(w, 4, 10) && |s| == 4 && 0 < r < 10
    ensures var x := Rounds(s, w, 10, r - 1);
      Rounds(s, w, 10, r) ==
        [Xd(w[4 * r], Mixed(SubWord(Shift(x[0], x[1], x[2], x[3])))),
         Xd(w[4 * r + 1], Mixed(SubWord(Shift(x[1], x[2], x[3], x[0])))),
         Xd(w[4 * r + 2], Mixed(SubWord(Shift(x[2], x[3], x[0], x[1])))),
         Xd(w[4 * r + 3], Mixed(SubWord(Shift(x[3], x[0], x[1], x[2]))))]
  {
    hide SubShift, SubWord, Shift, MixCol, Mixed, Xd;
    var x := Rounds(s, w, 10, r - 1);
    SubShift4(x);
    var y := SubShift(x);
    MixIs(y[0]);
    MixIs(y[1]);
    MixIs(y[2]);
    MixIs(y[3]);
  }

  lemma LastRound(s: State, w: seq<word>)
    requires Keys(w, 4, 10) && |s| == 4
    ensures var x := Rounds(s, w, 10, 9);
      Encrypt(s, w, 10) ==
        [Xd(w[40], SubWord(Shift(x[0], x[1], x[2], x[3]))), Xd(w[41], SubWord(Shift(x[1], x[2], x[3], x[0]))),
         Xd(w[42], SubWord(Shift(x[2], x[3], x[0], x[1]))), Xd(w[43], SubWord(Shift(x[3], x[0], x[1], x[2])))]
  {
    hide SubShift, SubWord, Shift, Xd, Rounds;
    SubShift4(Rounds(s, w, 10, 9));
  }

  lemma FirstRound(s: State, w: seq<word>)
    requires Keys(w, 4, 10) && |s| == 4
    ensures Rounds(s, w, 10, 0) == [Xd(w[0], s[0]), Xd(w[1], s[1]), Xd(w[2], s[2]), Xd(w[3], s[3])]
  {
    hide Xd;
  }

  /** The state of the example. */
  function Input(): (s: State)
    ensures |s| == 4
  {
    [0xA8F64332, 0x8D305A88, 0xA2983131, 0x340737E0]
  }

  lemma Round0(w: seq<word>, k: seq<byte>)
    requires |w| == 44 && Expanded(w, k) && k == Key()
    ensures Rounds(Input(), w, 10, 0) == [0xBEE33D19, 0x2BE2F4A0, 0x2A8DC69A, 0x0848F8E9]
  {
    hide Expanded;
    Group0(w, k);
    FirstRound(Input(), w);
  }

  lemma Round1(w: seq<word>, k: seq<byte>)
    requires |w| == 44 && Expanded(w, k) && k == Key()
    ensures Rounds(Input(), w, 10, 1) == [0xF27F9CA4, 0x2B359F68, 0x43EA5B6B, 0x49506A02]
  {
    hide SBox, Expanded, Rounds;
    Round0(w, k);
    Group1(w, k);
    Row0(); Row1(); Row2(); Row3(); Row4(); Row8(); Row9(); RowA(); RowB(); RowC(); RowE(); RowF();
    assert SubWord(Shift(0xBEE33D19, 0x2BE2F4A0, 0x2A8DC69A, 0x0848F8E9)) == 0x305DBFD4;
    assert SubWord(Shift(0x2BE2F4A0, 0x2A8DC69A, 0x0848F8E9, 0xBEE33D19)) == 0xAE52B4E0;
    assert SubWord(Shift(0x2A8DC69A, 0x0848F8E9, 0xBEE33D19, 0x2BE2F4A0)) == 0xF11141B8;
    assert SubWord(Shift(0x0848F8E9, 0xBEE33D19, 0x2BE2F4A0, 0x2A8DC69A)) == 0xE598271E;
    NextRound(Input(), w, 1);
  }

  lemma Round2(w: seq<word>, k: seq<byte>)
    requires |w| == 44 && Expanded(w, k) && k == Key()
    ensures Rounds(Input(), w, 10, 2) == [0x035F8FAA, 0xEFE3DD61, 0xD24AD282, 0x9A463268]
  {
    hide SBox, Expanded, Rounds;
    Round1(w, k);
    Group2(w, k);
    Row0(); Row2(); Row3(); Row4(); Row5(); Row6(); Row7(); Row9(); RowA(); RowE(); RowF();
    assert SubWord(Shift(0xF27F9CA4, 0x2B359F68, 0x43EA5B6B, 0x49506A02)) == 0x3B87DB49;
    assert SubWord(Shift(0x2B359F68, 0x43EA5B6B, 0x49506A02, 0xF27F9CA4)) == 0x89533945;
    assert SubWord(Shift(0x43EA5B6B, 0x49506A02, 0xF27F9CA4, 0x2B359F68)) == 0xF1D2027F;
    assert SubWord(Shift(0x49506A02, 0xF27F9CA4, 0x2B359F68, 0x43EA5B6B)) == 0x1A96DE77;
    NextRound(Input(), w, 2);
  }

  lemma Round3(w: seq<word>, k: seq<byte>)
    requires |w| == 44 && Expanded(w, k) && k == Key()
    ensures Rounds(Input(), w, 10, 3) == [0xEE4E6C48, 0x0D9D1D67, 0x38B1E34D, 0xE7585FD6]
  {
    hide SBox, Expanded, Rounds;
    Round2(w, k);
    Group3(w, k);
    Row0(); Row3(); Row4(); Row5(); Row6(); Row8(); Row9(); RowA(); RowD(); RowE();
    assert SubWord(Shift(0x035F8FAA, 0xEFE3DD61, 0xD24AD282, 0x9A463268)) == 0xB8D6C1AC;
    assert SubWord(Shift(0xEFE3DD61, 0xD24AD282, 0x9A463268, 0x035F8FAA)) == 0x7B5AB5EF;
    assert SubWord(Shift(0xD24AD282, 0x9A463268, 0x035F8FAA, 0xEFE3DD61)) == 0xDFCF2313;
    assert SubWord(Shift(0x9A463268, 0x035F8FAA, 0xEFE3DD61, 0xD24AD282)) == 0xB5117345;
    NextRound(Input(), w, 3);
  }

  lemma Round4(w: seq<word>, k: seq<byte>)
    requires |w| == 44 && Expanded(w, k) && k == Key()
    ensures Rounds(Input(), w, 10, 4) == [0xE87F92E0, 0xC06363C8, 0x5035B1D9, 0x01BEB885]
  {
    hide SBox, Expanded, Rounds;
    Round3(w, k);
    Group4(w, k);
    Row0(); Row1(); Row3(); Row4(); Row5(); Row6(); Row9(); RowB(); RowD(); RowE();
    assert SubWord(Shift(0xEE4E6C48, 0x0D9D1D67, 0x38B1E34D, 0xE7585FD6)) == 0x94C8A452;
    assert SubWord(Shift(0x0D9D1D67, 0x38B1E34D, 0xE7585FD6, 0xEE4E6C48)) == 0x286A1185;
    assert SubWord(Shift(0x38B1E34D, 0xE7585FD6, 0xEE4E6C48, 0x0D9D1D67)) == 0xD72FCFE3;
    assert SubWord(Shift(0xE7585FD6, 0xEE4E6C48, 0x0D9D1D67, 0x38B1E34D)) == 0x075E50F6;
    NextRound(Input(), w, 4);
  }

  lemma Round5(w: seq<word>, k: seq<byte>)
    requires |w| == 44 && Expanded(w, k) && k == Key()
    ensures Rounds(Input(), w, 10, 5) == [0x556F00F1, 0xEF4C92C1, 0x328BC87C, 0x0CD5B55D]
  {
    hide SBox, Expanded, Rounds;
    Round4(w, k);
    Group5(w, k);
    Row0(); Row3(); Row5(); Row6(); Row7(); Row8(); Row9(); RowB(); RowC(); RowD(); RowE();
    assert SubWord(Shift(0xE87F92E0, 0xC06363C8, 0x5035B1D9, 0x01BEB885)) == 0x7C96FBE1;
    assert SubWord(Shift(0xC06363C8, 0x5035B1D9, 0x01BEB885, 0xE87F92E0)) == 0x9BAEC8E8;
    assert SubWord(Shift(0x5035B1D9, 0x01BEB885, 0xE87F92E0, 0xC06363C8)) == 0xBAD26C35;
    assert SubWord(Shift(0x01BEB885, 0xE87F92E0, 0xC06363C8, 0x5035B1D9)) == 0x53FB4F97;
    NextRound(Input(), w, 5);
  }

  lemma Round6(w: seq<word>, k: seq<byte>)
    requires |w| == 44 && Expanded(w, k) && k == Key()
    ensures Rounds(Input(), w, 10, 6) == [0x172E0E26, 0x7DB7413D, 0xA97264E8, 0x258BD2FD]
  {
    hide SBox, Expanded, Rounds;
    Round5(w, k);
    Group6(w, k);
    Row0(); Row3(); Row4(); Row5(); Row6(); Row7(); Row8(); Row9(); RowB(); RowC(); RowD(); RowE(); RowF();
    assert SubWord(Shift(0x556F00F1, 0xEF4C92C1, 0x328BC87C, 0x0CD5B55D)) == 0xFE3D4FA1;
    assert SubWord(Shift(0xEF4C92C1, 0x328BC87C, 0x0CD5B55D, 0x556F00F1)) == 0xFC03E878;
    assert SubWord(Shift(0x328BC87C, 0x0CD5B55D, 0x556F00F1, 0xEF4C92C1)) == 0xDFA8D510;
    assert SubWord(Shift(0x0CD5B55D, 0x556F00F1, 0xEF4C92C1, 0x328BC87C)) == 0x2329634C;
    NextRound(Input(), w, 6);
  }

  lemma Round7(w: seq<word>, k: seq<byte>)
    requires |w| == 44 && Expanded(w, k) && k == Key()
    ensures Rounds(Input(), w, 10, 7) == [0xB142415A, 0x1FDC4919, 0x6519E0A3, 0x0C048C7A]
  {
    hide SBox, Expanded, Rounds;
    Round6(w, k);
    Group7(w, k);
    Row0(); Row1(); Row2(); Row3(); Row4(); Row6(); Row7(); Row8(); RowA(); RowB(); RowD(); RowE(); RowF();
    assert SubWord(Shift(0x172E0E26, 0x7DB7413D, 0xA97264E8, 0x258BD2FD)) == 0x3F4083F7;
    assert SubWord(Shift(0x7DB7413D, 0xA97264E8, 0x258BD2FD, 0x172E0E26)) == 0xF03D4327;
    assert SubWord(Shift(0xA97264E8, 0x258BD2FD, 0x172E0E26, 0x7DB7413D)) == 0xFF31B59B;
    assert SubWord(Shift(0x258BD2FD, 0x172E0E26, 0x7DB7413D, 0xA97264E8)) == 0xD3A9AB54;
    NextRound(Input(), w, 7);
  }

  lemma Round8(w: seq<word>, k: seq<byte>)
    requires |w| == 44 && Expanded(w, k) && k == Key()
    ensures Rounds(Input(), w, 10, 8) == [0xF05C83EA, 0x2D334504, 0xAD985D65, 0xC5B09685]
  {
    hide SBox, Expanded, Rounds;
    Round7(w, k);
    Group8(w, k);
    Row0(); Row1(); Row4(); Row5(); Row6(); Row7(); Row8(); RowA(); RowB(); RowD(); RowE();
    assert SubWord(Shift(0xB142415A, 0x1FDC4919, 0x6519E0A3, 0x0C048C7A)) == 0xFED43BBE;
    assert SubWord(Shift(0x1FDC4919, 0x6519E0A3, 0x0C048C7A, 0xB142415A)) == 0xC8F2E1D4;
    assert SubWord(Shift(0x6519E0A3, 0x0C048C7A, 0xB142415A, 0x1FDC4919)) == 0xC02C640A;
    assert SubWord(Shift(0x0C048C7A, 0xB142415A, 0x1FDC4919, 0x6519E0A3)) == 0x4D8683DA;
    NextRound(Input(), w, 8);
  }

  lemma Round9(w: seq<word>, k: seq<byte>)
    requires |w| == 44 && Expanded(w, k) && k == Key()
    ensures Rounds(Input(), w, 10, 9) == [0x1EF240EB, 0x84382E59, 0xE713A18B, 0xD242C31B]
  {
    hide SBox, Expanded, Rounds;
    Round8(w, k);
    Group9(w, k);
    Row0(); Row2(); Row3(); Row4(); Row5(); Row6(); Row8(); Row9(); RowA(); RowB(); RowC(); RowE(); RowF();
    assert SubWord(Shift(0xF05C83EA, 0x2D334504, 0xAD985D65, 0xC5B09685)) == 0xA6466E87;
    assert SubWord(Shift(0x2D334504, 0xAD985D65, 0xC5B09685, 0xF05C83EA)) == 0x8CE74CF2;
    assert SubWord(Shift(0xAD985D65, 0xC5B09685, 0xF05C83EA, 0x2D334504)) == 0xD84A904D;
    assert SubWord(Shift(0xC5B09685, 0xF05C83EA, 0x2D334504, 0xAD985D65)) == 0x95C3EC97;
    NextRound(Input(), w, 9);
  }

  lemma Round10(w: seq<word>, k: seq<byte>)
    requires |w| == 44 && Expanded(w, k) && k == Key()
    ensures Encrypt(Input(), w, 10) == [0x1D842539, 0xFB09DC02, 0x978511DC, 0x320B6A19]
  {
    hide SBox, Expanded, Rounds;
    Round9(w, k);
    Group10(w, k);
    Row1(); Row2(); Row3(); Row4(); Row5(); Row8(); RowA(); RowC(); RowD(); RowE(); RowF();
    assert SubWord(Shift(0x1EF240EB, 0x84382E59, 0xE713A18B, 0xD242C31B)) == 0xB57D31E9;
    assert SubWord(Shift(0x84382E59, 0xE713A18B, 0xD242C31B, 0x1EF240EB)) == 0x722C32CB;
    assert SubWord(Shift(0xE713A18B, 0xD242C31B, 0x1EF240EB, 0x84382E59)) == 0x5F892E3D;
    assert SubWord(Shift(0xD242C31B, 0x1EF240EB, 0x84382E59, 0xE713A18B)) == 0x940709AF;
    LastRound(Input(), w);
  }

  /** The block 32 43 f6 .. 34 is encrypted to 39 25 84 .. 32. */
  lemma Encrypted(w: seq<word>, k: seq<byte>)
    requires |w| == 44 && Expanded(w, k) && k == Key()
    ensures Encrypt(Columns([0x32, 0x43, 0xF6, 0xA8, 0x88, 0x5A, 0x30, 0x8D]
                               + [0x31, 0x31, 0x98, 0xA2, 0xE0, 0x37, 0x07, 0x34], 4), w, 10)
         == Columns([0x39, 0x25, 0x84, 0x1D, 0x02, 0xDC, 0x09, 0xFB]
                               + [0xDC, 0x11, 0x85, 0x97, 0x19, 0x6A, 0x0B, 0x32], 4)
  {
    hide Expanded, Encrypt;
    Round10(w, k);
    InputColumns();
    OutputColumns();
  }

  lemma InputColumns()
    ensures Columns([0x32, 0x43, 0xF6, 0xA8, 0x88, 0x5A, 0x30, 0x8D] + [0x31, 0x31, 0x98, 0xA2, 0xE0, 0x37, 0x07, 0x34],
      4)
         == Input()
  {
  }

  lemma OutputColumns()
    ensures Columns([0x39, 0x25, 0x84, 0x1D, 0x02, 0xDC, 0x09, 0xFB] + [0xDC, 0x11, 0x85, 0x97, 0x19, 0x6A, 0x0B, 0x32],
      4)
         == [0x1D842539, 0xFB09DC02, 0x978511DC, 0x320B6A19]
  {
  }

  // ---------- appendices A.2 and A.3: longer keys ----------

  /** The sixth and seventh word for a key of 24 bytes. */
  lemma Key192(k: seq<byte>)
    requires k == [0x8E, 0x73, 0xB0, 0xF7, 0xDA, 0x0E, 0x64, 0x52]
           + [0xC8, 0x10, 0xF3, 0x2B, 0x80, 0x90, 0x79, 0xE5]
           + [0x62, 0xF8, 0xEA, 0xD2, 0x52, 0x2C, 0x6B, 0x7B]
    ensures ScheduleWord(k, 6, 6) == 0xF7910CFE && ScheduleWord(k, 6, 7) == 0xA5F50224
  {
    hide SubWord, ScheduleWord, Rcon;
    StartWord(k, 6, 0); StartWord(k, 6, 1); StartWord(k, 6, 5);
    Subs6();
    RoundConstants();
    ScheduleAt(k, 6, 0, 0);
    ScheduleAt(k, 6, 0, 1);
  }

  /** The words from the eighth on for a key of 32 bytes; the twelfth is substituted without a rotation. */
  lemma Key256(k: seq<byte>)
    requires k == [0x60, 0x3D, 0xEB, 0x10, 0x15, 0xCA, 0x71, 0xBE]
           + [0x2B, 0x73, 0xAE, 0xF0, 0x85, 0x7D, 0x77, 0x81]
           + [0x1F, 0x35, 0x2C, 0x07, 0x3B, 0x61, 0x08, 0xD7]
           + [0x2D, 0x98, 0x10, 0xA3, 0x09, 0x14, 0xDF, 0xF4]
    ensures ScheduleWord(k, 8, 8) == 0x1154A39B && ScheduleWord(k, 8, 9) == 0xAF25698E
    ensures ScheduleWord(k, 8, 10) == 0x5F8B1AA5 && ScheduleWord(k, 8, 11) == 0xDEFC6720
    ensures ScheduleWord(k, 8, 12) == 0x1A9CB0A8
  {
    hide SubWord, ScheduleWord, Rcon;
    StartWord(k, 8, 0); StartWord(k, 8, 1); StartWord(k, 8, 2); StartWord(k, 8, 3); StartWord(k, 8, 4);
    StartWord(k, 8, 7);
    Subs8();
    RoundConstants();
    ScheduleAt(k, 8, 0, 0);
    ScheduleAt(k, 8, 0, 1);
    ScheduleAt(k, 8, 0, 2);
    ScheduleAt(k, 8, 0, 3);
    ScheduleAt(k, 8, 0, 4);
  }

  lemma StartWord(k: seq<byte>, nk: nat, i: nat)
    requires Width(nk) && |k| == 4 * nk && i < nk
    ensures ScheduleWord(k, nk, i) == Pack(k[4 * i], k[4 * i + 1], k[4 * i + 2], k[4 * i + 3])
  {
  }

  lemma Subs6()
    ensures SubWord(Rotl24(0x7B6B2C52)) == 0x00217F71
  {
    hide SBox;
    Row2(); Row5(); Row6(); Row7();
  }

  lemma Subs8()
    ensures SubWord(Rotl24(0xF4DF1409)) == 0x01BF9EFA
    ensures SubWord(0xDEFC6720) == 0x1DB085B7
  {
    hide SBox;
    Row0(); Row1(); Row2(); Row6(); RowD(); RowF();
  }

  /** How far ShiftRows turns the rows of blocks of 4, 6 and 8 columns. */
  lemma RowShifts()
    ensures Offset(4, 1) == Offset(6, 1) == Offset(8, 1) == 1 && Offset(4, 2) == Offset(6, 2) == 2 && Offset(8, 2) == 3
    ensures Offset(4, 3) == Offset(6, 3) == 3 && Offset(8, 3) == 4 && Offset(4, 0) == Offset(6, 0) == Offset(8, 0) == 0
  {
  }

  /** The number of rounds, figure 4 of FIPS 197. */
  lemma RoundCounts()
    ensures RoundCount(4, 4) == 10 && RoundCount(4, 6) == 12 && RoundCount(4, 8) == 14
  {
  }
}
