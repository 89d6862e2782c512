/** The tables of 511 entries of formats/mp3/huffman.h, in the rows they have there. */
module MpgCodesLarge {
  import opened MpgHuffman
  import opened MpgCodes

  // ---- tab13 ----

  const TAB13_0: seq<int> := [-509, -503, -475, -405, -333, -265, -205, -153, -115, -83, -53, -35, -21, -13, -9]
  const TAB13_1: seq<int> := [-7, -5, -3, -1, 254, 252, 253, 237, 255, -1, 239, 223, -3, -1, 238]
  const TAB13_2: seq<int> := [207, -1, 222, 191, -9, -3, -1, 251, 206, -1, 220, -1, 175, 233, -1]
  const TAB13_3: seq<int> := [236, 221, -9, -5, -3, -1, 250, 205, 190, -1, 235, 159, -3, -1, 249]
  const TAB13_4: seq<int> := [234, -1, 189, 219, -17, -9, -3, -1, 143, 248, -1, 204, -1, 174, 158]
  const TAB13_5: seq<int> := [-5, -1, 142, -1, 127, 126, 247, -5, -1, 218, -1, 173, 188, -3, -1]
  const TAB13_6: seq<int> := [203, 246, 111, -15, -7, -3, -1, 232, 95, -1, 157, 217, -3, -1, 245]
  const TAB13_7: seq<int> := [231, -1, 172, 187, -9, -3, -1, 79, 244, -3, -1, 202, 230, 243, -1]
  const TAB13_8: seq<int> := [63, -1, 141, 216, -21, -9, -3, -1, 47, 242, -3, -1, 110, 156, 15]
  const TAB13_9: seq<int> := [-5, -3, -1, 201, 94, 171, -3, -1, 125, 215, 78, -11, -5, -3, -1]
  const TAB13_10: seq<int> := [200, 214, 62, -1, 185, -1, 155, 170, -1, 31, 241, -23, -13, -5, -1]
  const TAB13_11: seq<int> := [240, -1, 186, 229, -3, -1, 228, 140, -1, 109, 227, -5, -1, 226, -1]
  const TAB13_12: seq<int> := [46, 14, -1, 30, 225, -15, -7, -3, -1, 224, 93, -1, 213, 124, -3]
  const TAB13_13: seq<int> := [-1, 199, 77, -1, 139, 184, -7, -3, -1, 212, 154, -1, 169, 108, -1]
  const TAB13_14: seq<int> := [198, 61, -37, -21, -9, -5, -3, -1, 211, 123, 45, -1, 210, 29, -5]
  const TAB13_15: seq<int> := [-1, 183, -1, 92, 197, -3, -1, 153, 122, 195, -7, -5, -3, -1, 167]
  const TAB13_16: seq<int> := [151, 75, 209, -3, -1, 13, 208, -1, 138, 168, -11, -7, -3, -1, 76]
  const TAB13_17: seq<int> := [196, -1, 107, 182, -1, 60, 44, -3, -1, 194, 91, -3, -1, 181, 137]
  const TAB13_18: seq<int> := [28, -43, -23, -11, -5, -1, 193, -1, 152, 12, -1, 192, -1, 180, 106]
  const TAB13_19: seq<int> := [-5, -3, -1, 166, 121, 59, -1, 179, -1, 136, 90, -11, -5, -1, 43]
  const TAB13_20: seq<int> := [-1, 165, 105, -1, 164, -1, 120, 135, -5, -1, 148, -1, 119, 118, 178]
  const TAB13_21: seq<int> := [-11, -3, -1, 27, 177, -3, -1, 11, 176, -1, 150, 74, -7, -3, -1]
  const TAB13_22: seq<int> := [58, 163, -1, 89, 149, -1, 42, 162, -47, -23, -9, -3, -1, 26, 161]
  const TAB13_23: seq<int> := [-3, -1, 10, 104, 160, -5, -3, -1, 134, 73, 147, -3, -1, 57, 88]
  const TAB13_24: seq<int> := [-1, 133, 103, -9, -3, -1, 41, 146, -3, -1, 87, 117, 56, -5, -1]
  const TAB13_25: seq<int> := [131, -1, 102, 71, -3, -1, 116, 86, -1, 101, 115, -11, -3, -1, 25]
  const TAB13_26: seq<int> := [145, -3, -1, 9, 144, -1, 72, 132, -7, -5, -1, 114, -1, 70, 100]
  const TAB13_27: seq<int> := [40, -1, 130, 24, -41, -27, -11, -5, -3, -1, 55, 39, 23, -1, 113]
  const TAB13_28: seq<int> := [-1, 85, 7, -7, -3, -1, 112, 54, -1, 99, 69, -3, -1, 84, 38]
  const TAB13_29: seq<int> := [-1, 98, 53, -5, -1, 129, -1, 8, 128, -3, -1, 22, 97, -1, 6]
  const TAB13_30: seq<int> := [96, -13, -9, -5, -3, -1, 83, 68, 37, -1, 82, 5, -1, 21, 81]
  const TAB13_31: seq<int> := [-7, -3, -1, 52, 67, -1, 80, 36, -3, -1, 66, 51, 20, -19, -11]
  const TAB13_32: seq<int> := [-5, -1, 65, -1, 4, 64, -3, -1, 35, 50, 19, -3, -1, 49, 3]
  const TAB13_33: seq<int> := [-1, 48, 34, -3, -1, 18, 33, -1, 2, 32, -3, -1, 17, 1, 16]
  const TAB13_34: seq<int> := [0]

  const TAB13 := Rows(
    [
      TAB13_0, TAB13_1, TAB13_2, TAB13_3, TAB13_4, TAB13_5, TAB13_6, TAB13_7,
      TAB13_8, TAB13_9, TAB13_10, TAB13_11, TAB13_12, TAB13_13, TAB13_14, TAB13_15,
      TAB13_16, TAB13_17, TAB13_18, TAB13_19, TAB13_20, TAB13_21, TAB13_22, TAB13_23,
      TAB13_24, TAB13_25, TAB13_26, TAB13_27, TAB13_28, TAB13_29, TAB13_30, TAB13_31,
      TAB13_32, TAB13_33],
    TAB13_34)

  const S13_0 := Push(511, Nil)
  const S13_1 :=
    Push(9, Push(3, Push(7, Push(13, Push(17, Push(29, Push(31, Push(37, Push(51, Push(59, Push(67, Push(71,
    Push(69, Push(27, Push(5, Push(1, Nil))))))))))))))))
  const S13_2 :=
    Push(1, Push(3, Push(13, Push(17, Push(29, Push(31, Push(37, Push(51, Push(59, Push(67, Push(71, Push(69,
    Push(27, Push(5, Push(1, Nil)))))))))))))))
  const S13_3 :=
    Push(1, Push(1, Push(17, Push(29, Push(31, Push(37, Push(51, Push(59, Push(67, Push(71, Push(69, Push(27,
    Push(5, Push(1, Nil))))))))))))))
  const S13_4 :=
    Push(1, Push(3, Push(29, Push(31, Push(37, Push(51, Push(59, Push(67, Push(71, Push(69, Push(27, Push(5,
    Push(1, Nil)))))))))))))
  const S13_5 :=
    Push(7, Push(11, Push(31, Push(37, Push(51, Push(59, Push(67, Push(71, Push(69, Push(27, Push(5, Push(1,
    Nil))))))))))))
  const S13_6 :=
    Push(1, Push(1, Push(1, Push(31, Push(37, Push(51, Push(59, Push(67, Push(71, Push(69, Push(27, Push(5,
    Push(1, Nil)))))))))))))
  const S13_7 :=
    Push(1, Push(3, Push(15, Push(37, Push(51, Push(59, Push(67, Push(71, Push(69, Push(27, Push(5, Push(1,
    Nil))))))))))))
  const S13_8 :=
    Push(1, Push(3, Push(37, Push(51, Push(59, Push(67, Push(71, Push(69, Push(27, Push(5, Push(1,
    Nil)))))))))))
  const S13_9 := Push(11, Push(15, Push(51, Push(59, Push(67, Push(71, Push(69, Push(27, Push(5, Push(1, Nil))))))))))
  const S13_10 :=
    Push(1, Push(1, Push(1, Push(5, Push(3, Push(51, Push(59, Push(67, Push(71, Push(69, Push(27, Push(5,
    Push(1, Nil)))))))))))))
  const S13_11 :=
    Push(1, Push(3, Push(7, Push(9, Push(27, Push(59, Push(67, Push(71, Push(69, Push(27, Push(5, Push(1,
    Nil))))))))))))
  const S13_12 :=
    Push(1, Push(1, Push(3, Push(27, Push(59, Push(67, Push(71, Push(69, Push(27, Push(5, Push(1,
    Nil)))))))))))
  const S13_13 := Push(3, Push(3, Push(11, Push(59, Push(67, Push(71, Push(69, Push(27, Push(5, Push(1, Nil))))))))))
  const S13_14 := Push(1, Push(1, Push(59, Push(67, Push(71, Push(69, Push(27, Push(5, Push(1, Nil)))))))))
  const S13_15 := Push(5, Push(5, Push(15, Push(21, Push(67, Push(71, Push(69, Push(27, Push(5, Push(1, Nil))))))))))
  const S13_16 :=
    Push(1, Push(1, Push(1, Push(7, Push(21, Push(67, Push(71, Push(69, Push(27, Push(5, Push(1,
    Nil)))))))))))
  const S13_17 := Push(1, Push(3, Push(3, Push(9, Push(67, Push(71, Push(69, Push(27, Push(5, Push(1, Nil))))))))))
  const S13_18 := Push(1, Push(67, Push(71, Push(69, Push(27, Push(5, Push(1, Nil)))))))
  const S13_19 := Push(11, Push(19, Push(23, Push(71, Push(69, Push(27, Push(5, Push(1, Nil))))))))
  const S13_20 := Push(3, Push(5, Push(7, Push(23, Push(71, Push(69, Push(27, Push(5, Push(1, Nil)))))))))
  const S13_21 := Push(23, Push(71, Push(69, Push(27, Push(5, Push(1, Nil))))))
  const S13_22 := Push(1, Push(1, Push(3, Push(3, Push(71, Push(69, Push(27, Push(5, Push(1, Nil)))))))))
  const S13_23 := Push(5, Push(13, Push(23, Push(23, Push(69, Push(27, Push(5, Push(1, Nil))))))))
  const S13_24 := Push(3, Push(23, Push(23, Push(69, Push(27, Push(5, Push(1, Nil)))))))
  const S13_25 := Push(1, Push(3, Push(7, Push(23, Push(69, Push(27, Push(5, Push(1, Nil))))))))
  const S13_26 := Push(1, Push(7, Push(11, Push(69, Push(27, Push(5, Push(1, Nil)))))))
  const S13_27 := Push(1, Push(3, Push(69, Push(27, Push(5, Push(1, Nil))))))
  const S13_28 := Push(3, Push(15, Push(13, Push(27, Push(27, Push(5, Push(1, Nil)))))))
  const S13_29 := Push(3, Push(13, Push(27, Push(27, Push(5, Push(1, Nil))))))
  const S13_30 := Push(1, Push(27, Push(27, Push(5, Push(1, Nil)))))
  const S13_31 := Push(13, Push(27, Push(5, Push(1, Nil))))
  const S13_32 := Push(11, Push(7, Push(7, Push(5, Push(1, Nil)))))
  const S13_33 := Push(3, Push(7, Push(5, Push(1, Nil))))
  const S13_34 := Push(1, Nil)

  lemma Tab13Row0() ensures Row(TAB13_0, S13_1) == S13_0 {}
  lemma Tab13Row1() ensures Row(TAB13_1, S13_2) == S13_1 {}
  lemma Tab13Row2() ensures Row(TAB13_2, S13_3) == S13_2 {}
  lemma Tab13Row3() ensures Row(TAB13_3, S13_4) == S13_3 {}
  lemma Tab13Row4() ensures Row(TAB13_4, S13_5) == S13_4 {}
  lemma Tab13Row5() ensures Row(TAB13_5, S13_6) == S13_5 {}
  lemma Tab13Row6() ensures Row(TAB13_6, S13_7) == S13_6 {}
  lemma Tab13Row7() ensures Row(TAB13_7, S13_8) == S13_7 {}
  lemma Tab13Row8() ensures Row(TAB13_8, S13_9) == S13_8 {}
  lemma Tab13Row9() ensures Row(TAB13_9, S13_10) == S13_9 {}
  lemma Tab13Row10() ensures Row(TAB13_10, S13_11) == S13_10 {}
  lemma Tab13Row11() ensures Row(TAB13_11, S13_12) == S13_11 {}
  lemma Tab13Row12() ensures Row(TAB13_12, S13_13) == S13_12 {}
  lemma Tab13Row13() ensures Row(TAB13_13, S13_14) == S13_13 {}
  lemma Tab13Row14() ensures Row(TAB13_14, S13_15) == S13_14 {}
  lemma Tab13Row15() ensures Row(TAB13_15, S13_16) == S13_15 {}
  lemma Tab13Row16() ensures Row(TAB13_16, S13_17) == S13_16 {}
  lemma Tab13Row17() ensures Row(TAB13_17, S13_18) == S13_17 {}
  lemma Tab13Row18() ensures Row(TAB13_18, S13_19) == S13_18 {}
  lemma Tab13Row19() ensures Row(TAB13_19, S13_20) == S13_19 {}
  lemma Tab13Row20() ensures Row(TAB13_20, S13_21) == S13_20 {}
  lemma Tab13Row21() ensures Row(TAB13_21, S13_22) == S13_21 {}
  lemma Tab13Row22() ensures Row(TAB13_22, S13_23) == S13_22 {}
  lemma Tab13Row23() ensures Row(TAB13_23, S13_24) == S13_23 {}
  lemma Tab13Row24() ensures Row(TAB13_24, S13_25) == S13_24 {}
  lemma Tab13Row25() ensures Row(TAB13_25, S13_26) == S13_25 {}
  lemma Tab13Row26() ensures Row(TAB13_26, S13_27) == S13_26 {}
  lemma Tab13Row27() ensures Row(TAB13_27, S13_28) == S13_27 {}
  lemma Tab13Row28() ensures Row(TAB13_28, S13_29) == S13_28 {}
  lemma Tab13Row29() ensures Row(TAB13_29, S13_30) == S13_29 {}
  lemma Tab13Row30() ensures Row(TAB13_30, S13_31) == S13_30 {}
  lemma Tab13Row31() ensures Row(TAB13_31, S13_32) == S13_31 {}
  lemma Tab13Row32() ensures Row(TAB13_32, S13_33) == S13_32 {}
  lemma Tab13Row33() ensures Row(TAB13_33, S13_34) == S13_33 {}

  lemma Tab13Last()
    ensures ShortRow(TAB13_34, 0, Nil) == S13_34
  {
    LastRow(TAB13_34);
  }

  lemma Tab13From30()
    ensures Stacked(TAB13, 30) == S13_30
  {
    hide Row, ShortRow, Stacked, TAB13_0, TAB13_1, TAB13_2, TAB13_3, TAB13_4, TAB13_5,
      TAB13_6, TAB13_7, TAB13_8, TAB13_9, TAB13_10, TAB13_11, TAB13_12, TAB13_13, TAB13_14,
      TAB13_15, TAB13_16, TAB13_17, TAB13_18, TAB13_19, TAB13_20, TAB13_21, TAB13_22, TAB13_23,
      TAB13_24, TAB13_25, TAB13_26, TAB13_27, TAB13_28, TAB13_29, TAB13_30, TAB13_31, TAB13_32,
      TAB13_33, TAB13_34, S13_1, S13_2, S13_3, S13_4, S13_5, S13_6, S13_7,
      S13_8, S13_9, S13_10, S13_11, S13_12, S13_13, S13_14, S13_15, S13_16,
      S13_17, S13_18, S13_19, S13_20, S13_21, S13_22, S13_23, S13_24, S13_25,
      S13_26, S13_27, S13_28, S13_29, S13_30, S13_31, S13_32, S13_33, S13_34;
    Tab13Row30();
    Tab13Row31();
    Tab13Row32();
    Tab13Row33();
    OneRow(TAB13, 30);
    OneRow(TAB13, 31);
    OneRow(TAB13, 32);
    OneRow(TAB13, 33);
    NoRow(TAB13);
    Tab13Last();
  }

  lemma Tab13From25()
    ensures Stacked(TAB13, 25) == S13_25
  {
    hide Row, ShortRow, Stacked, TAB13_0, TAB13_1, TAB13_2, TAB13_3, TAB13_4, TAB13_5,
      TAB13_6, TAB13_7, TAB13_8, TAB13_9, TAB13_10, TAB13_11, TAB13_12, TAB13_13, TAB13_14,
      TAB13_15, TAB13_16, TAB13_17, TAB13_18, TAB13_19, TAB13_20, TAB13_21, TAB13_22, TAB13_23,
      TAB13_24, TAB13_25, TAB13_26, TAB13_27, TAB13_28, TAB13_29, TAB13_30, TAB13_31, TAB13_32,
      TAB13_33, TAB13_34, S13_1, S13_2, S13_3, S13_4, S13_5, S13_6, S13_7,
      S13_8, S13_9, S13_10, S13_11, S13_12, S13_13, S13_14, S13_15, S13_16,
      S13_17, S13_18, S13_19, S13_20, S13_21, S13_22, S13_23, S13_24, S13_25,
      S13_26, S13_27, S13_28, S13_29, S13_30, S13_31, S13_32, S13_33, S13_34;
    Tab13Row25();
    Tab13Row26();
    Tab13Row27();
    Tab13Row28();
    Tab13Row29();
    Tab13From30();
    FiveRows(TAB13, 25);
  }

  lemma Tab13From20()
    ensures Stacked(TAB13, 20) == S13_20
  {
    hide Row, ShortRow, Stacked, TAB13_0, TAB13_1, TAB13_2, TAB13_3, TAB13_4, TAB13_5,
      TAB13_6, TAB13_7, TAB13_8, TAB13_9, TAB13_10, TAB13_11, TAB13_12, TAB13_13, TAB13_14,
      TAB13_15, TAB13_16, TAB13_17, TAB13_18, TAB13_19, TAB13_20, TAB13_21, TAB13_22, TAB13_23,
      TAB13_24, TAB13_25, TAB13_26, TAB13_27, TAB13_28, TAB13_29, TAB13_30, TAB13_31, TAB13_32,
      TAB13_33, TAB13_34, S13_1, S13_2, S13_3, S13_4, S13_5, S13_6, S13_7,
      S13_8, S13_9, S13_10, S13_11, S13_12, S13_13, S13_14, S13_15, S13_16,
      S13_17, S13_18, S13_19, S13_20, S13_21, S13_22, S13_23, S13_24, S13_25,
      S13_26, S13_27, S13_28, S13_29, S13_30, S13_31, S13_32, S13_33, S13_34;
    Tab13Row20();
    Tab13Row21();
    Tab13Row22();
    Tab13Row23();
    Tab13Row24();
    Tab13From25();
    FiveRows(TAB13, 20);
  }

  lemma Tab13From15()
    ensures Stacked(TAB13, 15) == S13_15
  {
    hide Row, ShortRow, Stacked, TAB13_0, TAB13_1, TAB13_2, TAB13_3, TAB13_4, TAB13_5,
      TAB13_6, TAB13_7, TAB13_8, TAB13_9, TAB13_10, TAB13_11, TAB13_12, TAB13_13, TAB13_14,
      TAB13_15, TAB13_16, TAB13_17, TAB13_18, TAB13_19, TAB13_20, TAB13_21, TAB13_22, TAB13_23,
      TAB13_24, TAB13_25, TAB13_26, TAB13_27, TAB13_28, TAB13_29, TAB13_30, TAB13_31, TAB13_32,
      TAB13_33, TAB13_34, S13_1, S13_2, S13_3, S13_4, S13_5, S13_6, S13_7,
      S13_8, S13_9, S13_10, S13_11, S13_12, S13_13, S13_14, S13_15, S13_16,
      S13_17, S13_18, S13_19, S13_20, S13_21, S13_22, S13_23, S13_24, S13_25,
      S13_26, S13_27, S13_28, S13_29, S13_30, S13_31, S13_32, S13_33, S13_34;
    Tab13Row15();
    Tab13Row16();
    Tab13Row17();
    Tab13Row18();
    Tab13Row19();
    Tab13From20();
    FiveRows(TAB13, 15);
  }

  lemma Tab13From10()
    ensures Stacked(TAB13, 10) == S13_10
  {
    hide Row, ShortRow, Stacked, TAB13_0, TAB13_1, TAB13_2, TAB13_3, TAB13_4, TAB13_5,
      TAB13_6, TAB13_7, TAB13_8, TAB13_9, TAB13_10, TAB13_11, TAB13_12, TAB13_13, TAB13_14,
      TAB13_15, TAB13_16, TAB13_17, TAB13_18, TAB13_19, TAB13_20, TAB13_21, TAB13_22, TAB13_23,
      TAB13_24, TAB13_25, TAB13_26, TAB13_27, TAB13_28, TAB13_29, TAB13_30, TAB13_31, TAB13_32,
      TAB13_33, TAB13_34, S13_1, S13_2, S13_3, S13_4, S13_5, S13_6, S13_7,
      S13_8, S13_9, S13_10, S13_11, S13_12, S13_13, S13_14, S13_15, S13_16,
      S13_17, S13_18, S13_19, S13_20, S13_21, S13_22, S13_23, S13_24, S13_25,
      S13_26, S13_27, S13_28, S13_29, S13_30, S13_31, S13_32, S13_33, S13_34;
    Tab13Row10();
    Tab13Row11();
    Tab13Row12();
    Tab13Row13();
    Tab13Row14();
    Tab13From15();
    FiveRows(TAB13, 10);
  }

  lemma Tab13From5()
    ensures Stacked(TAB13, 5) == S13_5
  {
    hide Row, ShortRow, Stacked, TAB13_0, TAB13_1, TAB13_2, TAB13_3, TAB13_4, TAB13_5,
      TAB13_6, TAB13_7, TAB13_8, TAB13_9, TAB13_10, TAB13_11, TAB13_12, TAB13_13, TAB13_14,
      TAB13_15, TAB13_16, TAB13_17, TAB13_18, TAB13_19, TAB13_20, TAB13_21, TAB13_22, TAB13_23,
      TAB13_24, TAB13_25, TAB13_26, TAB13_27, TAB13_28, TAB13_29, TAB13_30, TAB13_31, TAB13_32,
      TAB13_33, TAB13_34, S13_1, S13_2, S13_3, S13_4, S13_5, S13_6, S13_7,
      S13_8, S13_9, S13_10, S13_11, S13_12, S13_13, S13_14, S13_15, S13_16,
      S13_17, S13_18, S13_19, S13_20, S13_21, S13_22, S13_23, S13_24, S13_25,
      S13_26, S13_27, S13_28, S13_29, S13_30, S13_31, S13_32, S13_33, S13_34;
    Tab13Row5();
    Tab13Row6();
    Tab13Row7();
    Tab13Row8();
    Tab13Row9();
    Tab13From10();
    FiveRows(TAB13, 5);
  }

  lemma Tab13IsCode()
    ensures IsCode(Table(TAB13, 0))
  {
    hide Row, ShortRow, Stacked, TAB13_0, TAB13_1, TAB13_2, TAB13_3, TAB13_4, TAB13_5,
      TAB13_6, TAB13_7, TAB13_8, TAB13_9, TAB13_10, TAB13_11, TAB13_12, TAB13_13, TAB13_14,
      TAB13_15, TAB13_16, TAB13_17, TAB13_18, TAB13_19, TAB13_20, TAB13_21, TAB13_22, TAB13_23,
      TAB13_24, TAB13_25, TAB13_26, TAB13_27, TAB13_28, TAB13_29, TAB13_30, TAB13_31, TAB13_32,
      TAB13_33, TAB13_34, S13_1, S13_2, S13_3, S13_4, S13_5, S13_6, S13_7,
      S13_8, S13_9, S13_10, S13_11, S13_12, S13_13, S13_14, S13_15, S13_16,
      S13_17, S13_18, S13_19, S13_20, S13_21, S13_22, S13_23, S13_24, S13_25,
      S13_26, S13_27, S13_28, S13_29, S13_30, S13_31, S13_32, S13_33, S13_34;
    Tab13Row0();
    Tab13Row1();
    Tab13Row2();
    Tab13Row3();
    Tab13Row4();
    Tab13From5();
    FiveRows(TAB13, 0);
    TableIsCode(TAB13);
  }

  // ---- tab15 ----

  const TAB15_0: seq<int> := [-495, -445, -355, -263, -183, -115, -77, -43, -27, -13, -7, -3, -1, 255, 239]
  const TAB15_1: seq<int> := [-1, 254, 223, -1, 238, -1, 253, 207, -7, -3, -1, 252, 222, -1, 237]
  const TAB15_2: seq<int> := [191, -1, 251, -1, 206, 236, -7, -3, -1, 221, 175, -1, 250, 190, -3]
  const TAB15_3: seq<int> := [-1, 235, 205, -1, 220, 159, -15, -7, -3, -1, 249, 234, -1, 189, 219]
  const TAB15_4: seq<int> := [-3, -1, 143, 248, -1, 204, 158, -7, -3, -1, 233, 127, -1, 247, 173]
  const TAB15_5: seq<int> := [-3, -1, 218, 188, -1, 111, -1, 174, 15, -19, -11, -3, -1, 203, 246]
  const TAB15_6: seq<int> := [-3, -1, 142, 232, -1, 95, 157, -3, -1, 245, 126, -1, 231, 172, -9]
  const TAB15_7: seq<int> := [-3, -1, 202, 187, -3, -1, 217, 141, 79, -3, -1, 244, 63, -1, 243]
  const TAB15_8: seq<int> := [216, -33, -17, -9, -3, -1, 230, 47, -1, 242, -1, 110, 240, -3, -1]
  const TAB15_9: seq<int> := [31, 241, -1, 156, 201, -7, -3, -1, 94, 171, -1, 186, 229, -3, -1]
  const TAB15_10: seq<int> := [125, 215, -1, 78, 228, -15, -7, -3, -1, 140, 200, -1, 62, 109, -3]
  const TAB15_11: seq<int> := [-1, 214, 227, -1, 155, 185, -7, -3, -1, 46, 170, -1, 226, 30, -5]
  const TAB15_12: seq<int> := [-1, 225, -1, 14, 224, -1, 93, 213, -45, -25, -13, -7, -3, -1, 124]
  const TAB15_13: seq<int> := [199, -1, 77, 139, -1, 212, -1, 184, 154, -7, -3, -1, 169, 108, -1]
  const TAB15_14: seq<int> := [198, 61, -1, 211, 210, -9, -5, -3, -1, 45, 13, 29, -1, 123, 183]
  const TAB15_15: seq<int> := [-5, -1, 209, -1, 92, 208, -1, 197, 138, -17, -7, -3, -1, 168, 76]
  const TAB15_16: seq<int> := [-1, 196, 107, -5, -1, 182, -1, 153, 12, -1, 60, 195, -9, -3, -1]
  const TAB15_17: seq<int> := [122, 167, -1, 166, -1, 192, 11, -1, 194, -1, 44, 91, -55, -29, -15]
  const TAB15_18: seq<int> := [-7, -3, -1, 181, 28, -1, 137, 152, -3, -1, 193, 75, -1, 180, 106]
  const TAB15_19: seq<int> := [-5, -3, -1, 59, 121, 179, -3, -1, 151, 136, -1, 43, 90, -11, -5]
  const TAB15_20: seq<int> := [-1, 178, -1, 165, 27, -1, 177, -1, 176, 105, -7, -3, -1, 150, 74]
  const TAB15_21: seq<int> := [-1, 164, 120, -3, -1, 135, 58, 163, -17, -7, -3, -1, 89, 149, -1]
  const TAB15_22: seq<int> := [42, 162, -3, -1, 26, 161, -3, -1, 10, 160, 104, -7, -3, -1, 134]
  const TAB15_23: seq<int> := [73, -1, 148, 57, -5, -1, 147, -1, 119, 9, -1, 88, 133, -53, -29]
  const TAB15_24: seq<int> := [-13, -7, -3, -1, 41, 103, -1, 118, 146, -1, 145, -1, 25, 144, -7]
  const TAB15_25: seq<int> := [-3, -1, 72, 132, -1, 87, 117, -3, -1, 56, 131, -1, 102, 71, -7]
  const TAB15_26: seq<int> := [-3, -1, 40, 130, -1, 24, 129, -7, -3, -1, 116, 8, -1, 128, 86]
  const TAB15_27: seq<int> := [-3, -1, 101, 55, -1, 115, 70, -17, -7, -3, -1, 39, 114, -1, 100]
  const TAB15_28: seq<int> := [23, -3, -1, 85, 113, -3, -1, 7, 112, 54, -7, -3, -1, 99, 69]
  const TAB15_29: seq<int> := [-1, 84, 38, -3, -1, 98, 22, -3, -1, 6, 96, 53, -33, -19, -9]
  const TAB15_30: seq<int> := [-5, -1, 97, -1, 83, 68, -1, 37, 82, -3, -1, 21, 81, -3, -1]
  const TAB15_31: seq<int> := [5, 80, 52, -7, -3, -1, 67, 36, -1, 66, 51, -1, 65, -1, 20]
  const TAB15_32: seq<int> := [4, -9, -3, -1, 35, 50, -3, -1, 64, 3, 19, -3, -1, 49, 48]
  const TAB15_33: seq<int> := [34, -9, -7, -3, -1, 18, 33, -1, 2, 32, 17, -3, -1, 1, 16]
  const TAB15_34: seq<int> := [0]

  const TAB15 := Rows(
    [
      TAB15_0, TAB15_1, TAB15_2, TAB15_3, TAB15_4, TAB15_5, TAB15_6, TAB15_7,
      TAB15_8, TAB15_9, TAB15_10, TAB15_11, TAB15_12, TAB15_13, TAB15_14, TAB15_15,
      TAB15_16, TAB15_17, TAB15_18, TAB15_19, TAB15_20, TAB15_21, TAB15_22, TAB15_23,
      TAB15_24, TAB15_25, TAB15_26, TAB15_27, TAB15_28, TAB15_29, TAB15_30, TAB15_31,
      TAB15_32, TAB15_33],
    TAB15_34)

  const S15_0 := Push(511, Nil)
  const S15_1 :=
    Push(3, Push(5, Push(13, Push(15, Push(33, Push(37, Push(67, Push(79, Push(91, Push(89, Push(49, Push(15,
    Nil))))))))))))
  const S15_2 :=
    Push(1, Push(5, Push(15, Push(33, Push(37, Push(67, Push(79, Push(91, Push(89, Push(49, Push(15,
    Nil)))))))))))
  const S15_3 := Push(3, Push(3, Push(33, Push(37, Push(67, Push(79, Push(91, Push(89, Push(49, Push(15, Nil))))))))))
  const S15_4 := Push(7, Push(17, Push(37, Push(67, Push(79, Push(91, Push(89, Push(49, Push(15, Nil)))))))))
  const S15_5 := Push(9, Push(37, Push(67, Push(79, Push(91, Push(89, Push(49, Push(15, Nil))))))))
  const S15_6 := Push(7, Push(7, Push(17, Push(67, Push(79, Push(91, Push(89, Push(49, Push(15, Nil)))))))))
  const S15_7 := Push(9, Push(7, Push(67, Push(79, Push(91, Push(89, Push(49, Push(15, Nil))))))))
  const S15_8 := Push(1, Push(67, Push(79, Push(91, Push(89, Push(49, Push(15, Nil)))))))
  const S15_9 := Push(1, Push(1, Push(3, Push(15, Push(33, Push(79, Push(91, Push(89, Push(49, Push(15, Nil))))))))))
  const S15_10 := Push(1, Push(1, Push(3, Push(33, Push(79, Push(91, Push(89, Push(49, Push(15, Nil)))))))))
  const S15_11 := Push(3, Push(3, Push(17, Push(79, Push(91, Push(89, Push(49, Push(15, Nil))))))))
  const S15_12 := Push(5, Push(3, Push(79, Push(91, Push(89, Push(49, Push(15, Nil)))))))
  const S15_13 := Push(1, Push(3, Push(5, Push(11, Push(19, Push(33, Push(91, Push(89, Push(49, Push(15, Nil))))))))))
  const S15_14 := Push(1, Push(1, Push(3, Push(19, Push(33, Push(91, Push(89, Push(49, Push(15, Nil)))))))))
  const S15_15 := Push(9, Push(33, Push(91, Push(89, Push(49, Push(15, Nil))))))
  const S15_16 := Push(3, Push(9, Push(15, Push(91, Push(89, Push(49, Push(15, Nil)))))))
  const S15_17 := Push(1, Push(1, Push(5, Push(5, Push(91, Push(89, Push(49, Push(15, Nil))))))))
  const S15_18 := Push(15, Push(13, Push(25, Push(35, Push(89, Push(49, Push(15, Nil)))))))
  const S15_19 := Push(13, Push(25, Push(35, Push(89, Push(49, Push(15, Nil))))))
  const S15_20 := Push(5, Push(5, Push(13, Push(35, Push(89, Push(49, Push(15, Nil)))))))
  const S15_21 := Push(3, Push(5, Push(35, Push(89, Push(49, Push(15, Nil))))))
  const S15_22 := Push(1, Push(1, Push(9, Push(17, Push(89, Push(49, Push(15, Nil)))))))
  const S15_23 := Push(1, Push(3, Push(9, Push(89, Push(49, Push(15, Nil))))))
  const S15_24 := Push(29, Push(23, Push(35, Push(49, Push(15, Nil)))))
  const S15_25 := Push(7, Push(7, Push(23, Push(35, Push(49, Push(15, Nil))))))
  const S15_26 := Push(7, Push(15, Push(35, Push(49, Push(15, Nil)))))
  const S15_27 := Push(7, Push(35, Push(49, Push(15, Nil))))
  const S15_28 := Push(1, Push(9, Push(17, Push(49, Push(15, Nil)))))
  const S15_29 := Push(3, Push(9, Push(49, Push(15, Nil))))
  const S15_30 := Push(9, Push(9, Push(13, Push(15, Push(15, Nil)))))
  const S15_31 := Push(1, Push(1, Push(1, Push(13, Push(15, Push(15, Nil))))))
  const S15_32 := Push(1, Push(15, Push(15, Nil)))
  const S15_33 := Push(1, Push(15, Nil))
  const S15_34 := Push(1, Nil)

  lemma Tab15Row0() ensures Row(TAB15_0, S15_1) == S15_0 {}
  lemma Tab15Row1() ensures Row(TAB15_1, S15_2) == S15_1 {}
  lemma Tab15Row2() ensures Row(TAB15_2, S15_3) == S15_2 {}
  lemma Tab15Row3() ensures Row(TAB15_3, S15_4) == S15_3 {}
  lemma Tab15Row4() ensures Row(TAB15_4, S15_5) == S15_4 {}
  lemma Tab15Row5() ensures Row(TAB15_5, S15_6) == S15_5 {}
  lemma Tab15Row6() ensures Row(TAB15_6, S15_7) == S15_6 {}
  lemma Tab15Row7() ensures Row(TAB15_7, S15_8) == S15_7 {}
  lemma Tab15Row8() ensures Row(TAB15_8, S15_9) == S15_8 {}
  lemma Tab15Row9() ensures Row(TAB15_9, S15_10) == S15_9 {}
  lemma Tab15Row10() ensures Row(TAB15_10, S15_11) == S15_10 {}
  lemma Tab15Row11() ensures Row(TAB15_11, S15_12) == S15_11 {}
  lemma Tab15Row12() ensures Row(TAB15_12, S15_13) == S15_12 {}
  lemma Tab15Row13() ensures Row(TAB15_13, S15_14) == S15_13 {}
  lemma Tab15Row14() ensures Row(TAB15_14, S15_15) == S15_14 {}
  lemma Tab15Row15() ensures Row(TAB15_15, S15_16) == S15_15 {}
  lemma Tab15Row16() ensures Row(TAB15_16, S15_17) == S15_16 {}
  lemma Tab15Row17() ensures Row(TAB15_17, S15_18) == S15_17 {}
  lemma Tab15Row18() ensures Row(TAB15_18, S15_19) == S15_18 {}
  lemma Tab15Row19() ensures Row(TAB15_19, S15_20) == S15_19 {}
  lemma Tab15Row20() ensures Row(TAB15_20, S15_21) == S15_20 {}
  lemma Tab15Row21() ensures Row(TAB15_21, S15_22) == S15_21 {}
  lemma Tab15Row22() ensures Row(TAB15_22, S15_23) == S15_22 {}
  lemma Tab15Row23() ensures Row(TAB15_23, S15_24) == S15_23 {}
  lemma Tab15Row24() ensures Row(TAB15_24, S15_25) == S15_24 {}
  lemma Tab15Row25() ensures Row(TAB15_25, S15_26) == S15_25 {}
  lemma Tab15Row26() ensures Row(TAB15_26, S15_27) == S15_26 {}
  lemma Tab15Row27() ensures Row(TAB15_27, S15_28) == S15_27 {}
  lemma Tab15Row28() ensures Row(TAB15_28, S15_29) == S15_28 {}
  lemma Tab15Row29() ensures Row(TAB15_29, S15_30) == S15_29 {}
  lemma Tab15Row30() ensures Row(TAB15_30, S15_31) == S15_30 {}
  lemma Tab15Row31() ensures Row(TAB15_31, S15_32) == S15_31 {}
  lemma Tab15Row32() ensures Row(TAB15_32, S15_33) == S15_32 {}
  lemma Tab15Row33() ensures Row(TAB15_33, S15_34) == S15_33 {}

  lemma Tab15Last()
    ensures ShortRow(TAB15_34, 0, Nil) == S15_34
  {
    LastRow(TAB15_34);
  }

  lemma Tab15From30()
    ensures Stacked(TAB15, 30) == S15_30
  {
    hide Row, ShortRow, Stacked, TAB15_0, TAB15_1, TAB15_2, TAB15_3, TAB15_4, TAB15_5,
      TAB15_6, TAB15_7, TAB15_8, TAB15_9, TAB15_10, TAB15_11, TAB15_12, TAB15_13, TAB15_14,
      TAB15_15, TAB15_16, TAB15_17, TAB15_18, TAB15_19, TAB15_20, TAB15_21, TAB15_22, TAB15_23,
      TAB15_24, TAB15_25, TAB15_26, TAB15_27, TAB15_28, TAB15_29, TAB15_30, TAB15_31, TAB15_32,
      TAB15_33, TAB15_34, S15_1, S15_2, S15_3, S15_4, S15_5, S15_6, S15_7,
      S15_8, S15_9, S15_10, S15_11, S15_12, S15_13, S15_14, S15_15, S15_16,
      S15_17, S15_18, S15_19, S15_20, S15_21, S15_22, S15_23, S15_24, S15_25,
      S15_26, S15_27, S15_28, S15_29, S15_30, S15_31, S15_32, S15_33, S15_34;
    Tab15Row30();
    Tab15Row31();
    Tab15Row32();
    Tab15Row33();
    OneRow(TAB15, 30);
    OneRow(TAB15, 31);
    OneRow(TAB15, 32);
    OneRow(TAB15, 33);
    NoRow(TAB15);
    Tab15Last();
  }

  lemma Tab15From25()
    ensures Stacked(TAB15, 25) == S15_25
  {
    hide Row, ShortRow, Stacked, TAB15_0, TAB15_1, TAB15_2, TAB15_3, TAB15_4, TAB15_5,
      TAB15_6, TAB15_7, TAB15_8, TAB15_9, TAB15_10, TAB15_11, TAB15_12, TAB15_13, TAB15_14,
      TAB15_15, TAB15_16, TAB15_17, TAB15_18, TAB15_19, TAB15_20, TAB15_21, TAB15_22, TAB15_23,
      TAB15_24, TAB15_25, TAB15_26, TAB15_27, TAB15_28, TAB15_29, TAB15_30, TAB15_31, TAB15_32,
      TAB15_33, TAB15_34, S15_1, S15_2, S15_3, S15_4, S15_5, S15_6, S15_7,
      S15_8, S15_9, S15_10, S15_11, S15_12, S15_13, S15_14, S15_15, S15_16,
      S15_17, S15_18, S15_19, S15_20, S15_21, S15_22, S15_23, S15_24, S15_25,
      S15_26, S15_27, S15_28, S15_29, S15_30, S15_31, S15_32, S15_33, S15_34;
    Tab15Row25();
    Tab15Row26();
    Tab15Row27();
    Tab15Row28();
    Tab15Row29();
    Tab15From30();
    FiveRows(TAB15, 25);
  }

  lemma Tab15From20()
    ensures Stacked(TAB15, 20) == S15_20
  {
    hide Row, ShortRow, Stacked, TAB15_0, TAB15_1, TAB15_2, TAB15_3, TAB15_4, TAB15_5,
      TAB15_6, TAB15_7, TAB15_8, TAB15_9, TAB15_10, TAB15_11, TAB15_12, TAB15_13, TAB15_14,
      TAB15_15, TAB15_16, TAB15_17, TAB15_18, TAB15_19, TAB15_20, TAB15_21, TAB15_22, TAB15_23,
      TAB15_24, TAB15_25, TAB15_26, TAB15_27, TAB15_28, TAB15_29, TAB15_30, TAB15_31, TAB15_32,
      TAB15_33, TAB15_34, S15_1, S15_2, S15_3, S15_4, S15_5, S15_6, S15_7,
      S15_8, S15_9, S15_10, S15_11, S15_12, S15_13, S15_14, S15_15, S15_16,
      S15_17, S15_18, S15_19, S15_20, S15_21, S15_22, S15_23, S15_24, S15_25,
      S15_26, S15_27, S15_28, S15_29, S15_30, S15_31, S15_32, S15_33, S15_34;
    Tab15Row20();
    Tab15Row21();
    Tab15Row22();
    Tab15Row23();
    Tab15Row24();
    Tab15From25();
    FiveRows(TAB15, 20);
  }

  lemma Tab15From15()
    ensures Stacked(TAB15, 15) == S15_15
  {
    hide Row, ShortRow, Stacked, TAB15_0, TAB15_1, TAB15_2, TAB15_3, TAB15_4, TAB15_5,
      TAB15_6, TAB15_7, TAB15_8, TAB15_9, TAB15_10, TAB15_11, TAB15_12, TAB15_13, TAB15_14,
      TAB15_15, TAB15_16, TAB15_17, TAB15_18, TAB15_19, TAB15_20, TAB15_21, TAB15_22, TAB15_23,
      TAB15_24, TAB15_25, TAB15_26, TAB15_27, TAB15_28, TAB15_29, TAB15_30, TAB15_31, TAB15_32,
      TAB15_33, TAB15_34, S15_1, S15_2, S15_3, S15_4, S15_5, S15_6, S15_7,
      S15_8, S15_9, S15_10, S15_11, S15_12, S15_13, S15_14, S15_15, S15_16,
      S15_17, S15_18, S15_19, S15_20, S15_21, S15_22, S15_23, S15_24, S15_25,
      S15_26, S15_27, S15_28, S15_29, S15_30, S15_31, S15_32, S15_33, S15_34;
    Tab15Row15();
    Tab15Row16();
    Tab15Row17();
    Tab15Row18();
    Tab15Row19();
    Tab15From20();
    FiveRows(TAB15, 15);
  }

  lemma Tab15From10()
    ensures Stacked(TAB15, 10) == S15_10
  {
    hide Row, ShortRow, Stacked, TAB15_0, TAB15_1, TAB15_2, TAB15_3, TAB15_4, TAB15_5,
      TAB15_6, TAB15_7, TAB15_8, TAB15_9, TAB15_10, TAB15_11, TAB15_12, TAB15_13, TAB15_14,
      TAB15_15, TAB15_16, TAB15_17, TAB15_18, TAB15_19, TAB15_20, TAB15_21, TAB15_22, TAB15_23,
      TAB15_24, TAB15_25, TAB15_26, TAB15_27, TAB15_28, TAB15_29, TAB15_30, TAB15_31, TAB15_32,
      TAB15_33, TAB15_34, S15_1, S15_2, S15_3, S15_4, S15_5, S15_6, S15_7,
      S15_8, S15_9, S15_10, S15_11, S15_12, S15_13, S15_14, S15_15, S15_16,
      S15_17, S15_18, S15_19, S15_20, S15_21, S15_22, S15_23, S15_24, S15_25,
      S15_26, S15_27, S15_28, S15_29, S15_30, S15_31, S15_32, S15_33, S15_34;
    Tab15Row10();
    Tab15Row11();
    Tab15Row12();
    Tab15Row13();
    Tab15Row14();
    Tab15From15();
    FiveRows(TAB15, 10);
  }

  lemma Tab15From5()
    ensures Stacked(TAB15, 5) == S15_5
  {
    hide Row, ShortRow, Stacked, TAB15_0, TAB15_1, TAB15_2, TAB15_3, TAB15_4, TAB15_5,
      TAB15_6, TAB15_7, TAB15_8, TAB15_9, TAB15_10, TAB15_11, TAB15_12, TAB15_13, TAB15_14,
      TAB15_15, TAB15_16, TAB15_17, TAB15_18, TAB15_19, TAB15_20, TAB15_21, TAB15_22, TAB15_23,
      TAB15_24, TAB15_25, TAB15_26, TAB15_27, TAB15_28, TAB15_29, TAB15_30, TAB15_31, TAB15_32,
      TAB15_33, TAB15_34, S15_1, S15_2, S15_3, S15_4, S15_5, S15_6, S15_7,
      S15_8, S15_9, S15_10, S15_11, S15_12, S15_13, S15_14, S15_15, S15_16,
      S15_17, S15_18, S15_19, S15_20, S15_21, S15_22, S15_23, S15_24, S15_25,
      S15_26, S15_27, S15_28, S15_29, S15_30, S15_31, S15_32, S15_33, S15_34;
    Tab15Row5();
    Tab15Row6();
    Tab15Row7();
    Tab15Row8();
    Tab15Row9();
    Tab15From10();
    FiveRows(TAB15, 5);
  }

  lemma Tab15IsCode()
    ensures IsCode(Table(TAB15, 0))
  {
    hide Row, ShortRow, Stacked, TAB15_0, TAB15_1, TAB15_2, TAB15_3, TAB15_4, TAB15_5,
      TAB15_6, TAB15_7, TAB15_8, TAB15_9, TAB15_10, TAB15_11, TAB15_12, TAB15_13, TAB15_14,
      TAB15_15, TAB15_16, TAB15_17, TAB15_18, TAB15_19, TAB15_20, TAB15_21, TAB15_22, TAB15_23,
      TAB15_24, TAB15_25, TAB15_26, TAB15_27, TAB15_28, TAB15_29, TAB15_30, TAB15_31, TAB15_32,
      TAB15_33, TAB15_34, S15_1, S15_2, S15_3, S15_4, S15_5, S15_6, S15_7,
      S15_8, S15_9, S15_10, S15_11, S15_12, S15_13, S15_14, S15_15, S15_16,
      S15_17, S15_18, S15_19, S15_20, S15_21, S15_22, S15_23, S15_24, S15_25,
      S15_26, S15_27, S15_28, S15_29, S15_30, S15_31, S15_32, S15_33, S15_34;
    Tab15Row0();
    Tab15Row1();
    Tab15Row2();
    Tab15Row3();
    Tab15Row4();
    Tab15From5();
    FiveRows(TAB15, 0);
    TableIsCode(TAB15);
  }

  // ---- tab16 ----

  const TAB16_0: seq<int> := [-509, -503, -461, -323, -103, -37, -27, -15, -7, -3, -1, 239, 254, -1, 223]
  const TAB16_1: seq<int> := [253, -3, -1, 207, 252, -1, 191, 251, -5, -1, 175, -1, 250, 159, -3]
  const TAB16_2: seq<int> := [-1, 249, 248, 143, -7, -3, -1, 127, 247, -1, 111, 246, 255, -9, -5]
  const TAB16_3: seq<int> := [-3, -1, 95, 245, 79, -1, 244, 243, -53, -1, 240, -1, 63, -29, -19]
  const TAB16_4: seq<int> := [-13, -7, -5, -1, 206, -1, 236, 221, 222, -1, 233, -1, 234, 217, -1]
  const TAB16_5: seq<int> := [238, -1, 237, 235, -3, -1, 190, 205, -3, -1, 220, 219, 174, -11, -5]
  const TAB16_6: seq<int> := [-1, 204, -1, 173, 218, -3, -1, 126, 172, 202, -5, -3, -1, 201, 125]
  const TAB16_7: seq<int> := [94, 189, 242, -93, -5, -3, -1, 47, 15, 31, -1, 241, -49, -25, -13]
  const TAB16_8: seq<int> := [-5, -1, 158, -1, 188, 203, -3, -1, 142, 232, -1, 157, 231, -7, -3]
  const TAB16_9: seq<int> := [-1, 187, 141, -1, 216, 110, -1, 230, 156, -13, -7, -3, -1, 171, 186]
  const TAB16_10: seq<int> := [-1, 229, 215, -1, 78, -1, 228, 140, -3, -1, 200, 62, -1, 109, -1]
  const TAB16_11: seq<int> := [214, 155, -19, -11, -5, -3, -1, 185, 170, 225, -1, 212, -1, 184, 169]
  const TAB16_12: seq<int> := [-5, -1, 123, -1, 183, 208, 227, -7, -3, -1, 14, 224, -1, 93, 213]
  const TAB16_13: seq<int> := [-3, -1, 124, 199, -1, 77, 139, -75, -45, -27, -13, -7, -3, -1, 154]
  const TAB16_14: seq<int> := [108, -1, 198, 61, -3, -1, 92, 197, 13, -7, -3, -1, 138, 168, -1]
  const TAB16_15: seq<int> := [153, 76, -3, -1, 182, 122, 60, -11, -5, -3, -1, 91, 137, 28, -1]
  const TAB16_16: seq<int> := [192, -1, 152, 121, -1, 226, -1, 46, 30, -15, -7, -3, -1, 211, 45]
  const TAB16_17: seq<int> := [-1, 210, 209, -5, -1, 59, -1, 151, 136, 29, -7, -3, -1, 196, 107]
  const TAB16_18: seq<int> := [-1, 195, 167, -1, 44, -1, 194, 181, -23, -13, -7, -3, -1, 193, 12]
  const TAB16_19: seq<int> := [-1, 75, 180, -3, -1, 106, 166, 179, -5, -3, -1, 90, 165, 43, -1]
  const TAB16_20: seq<int> := [178, 27, -13, -5, -1, 177, -1, 11, 176, -3, -1, 105, 150, -1, 74]
  const TAB16_21: seq<int> := [164, -5, -3, -1, 120, 135, 163, -3, -1, 58, 89, 42, -97, -57, -33]
  const TAB16_22: seq<int> := [-19, -11, -5, -3, -1, 149, 104, 161, -3, -1, 134, 119, 148, -5, -3]
  const TAB16_23: seq<int> := [-1, 73, 87, 103, 162, -5, -1, 26, -1, 10, 160, -3, -1, 57, 147]
  const TAB16_24: seq<int> := [-1, 88, 133, -9, -3, -1, 41, 146, -3, -1, 118, 9, 25, -5, -1]
  const TAB16_25: seq<int> := [145, -1, 144, 72, -3, -1, 132, 117, -1, 56, 131, -21, -11, -5, -3]
  const TAB16_26: seq<int> := [-1, 102, 40, 130, -3, -1, 71, 116, 24, -3, -1, 129, 128, -3, -1]
  const TAB16_27: seq<int> := [8, 86, 55, -9, -5, -1, 115, -1, 101, 70, -1, 39, 114, -5, -3]
  const TAB16_28: seq<int> := [-1, 100, 85, 7, 23, -23, -13, -5, -1, 113, -1, 112, 54, -3, -1]
  const TAB16_29: seq<int> := [99, 69, -1, 84, 38, -3, -1, 98, 22, -1, 97, -1, 6, 96, -9]
  const TAB16_30: seq<int> := [-5, -1, 83, -1, 53, 68, -1, 37, 82, -1, 81, -1, 21, 5, -33]
  const TAB16_31: seq<int> := [-23, -13, -7, -3, -1, 52, 67, -1, 80, 36, -3, -1, 66, 51, 20]
  const TAB16_32: seq<int> := [-5, -1, 65, -1, 4, 64, -1, 35, 50, -3, -1, 19, 49, -3, -1]
  const TAB16_33: seq<int> := [3, 48, 34, -3, -1, 18, 33, -1, 2, 32, -3, -1, 17, 1, 16]
  const TAB16_34: seq<int> := [0]

  const TAB16 := Rows(
    [
      TAB16_0, TAB16_1, TAB16_2, TAB16_3, TAB16_4, TAB16_5, TAB16_6, TAB16_7,
      TAB16_8, TAB16_9, TAB16_10, TAB16_11, TAB16_12, TAB16_13, TAB16_14, TAB16_15,
      TAB16_16, TAB16_17, TAB16_18, TAB16_19, TAB16_20, TAB16_21, TAB16_22, TAB16_23,
      TAB16_24, TAB16_25, TAB16_26, TAB16_27, TAB16_28, TAB16_29, TAB16_30, TAB16_31,
      TAB16_32, TAB16_33],
    TAB16_34)

  const S16_0 := Push(511, Nil)
  const S16_1 := Push(1, Push(7, Push(11, Push(9, Push(65, Push(219, Push(137, Push(41, Push(5, Push(1, Nil))))))))))
  const S16_2 := Push(3, Push(1, Push(9, Push(65, Push(219, Push(137, Push(41, Push(5, Push(1, Nil)))))))))
  const S16_3 := Push(5, Push(3, Push(55, Push(219, Push(137, Push(41, Push(5, Push(1, Nil))))))))
  const S16_4 := Push(19, Push(9, Push(19, Push(1, Push(219, Push(137, Push(41, Push(5, Push(1, Nil)))))))))
  const S16_5 := Push(1, Push(3, Push(9, Push(19, Push(1, Push(219, Push(137, Push(41, Push(5, Push(1, Nil))))))))))
  const S16_6 := Push(5, Push(5, Push(7, Push(1, Push(219, Push(137, Push(41, Push(5, Push(1, Nil)))))))))
  const S16_7 := Push(1, Push(1, Push(1, Push(219, Push(137, Push(41, Push(5, Push(1, Nil))))))))
  const S16_8 := Push(13, Push(11, Push(23, Push(35, Push(125, Push(137, Push(41, Push(5, Push(1, Nil)))))))))
  const S16_9 := Push(3, Push(3, Push(3, Push(23, Push(35, Push(125, Push(137, Push(41, Push(5, Push(1, Nil))))))))))
  const S16_10 := Push(3, Push(5, Push(9, Push(35, Push(125, Push(137, Push(41, Push(5, Push(1, Nil)))))))))
  const S16_11 := Push(1, Push(1, Push(35, Push(125, Push(137, Push(41, Push(5, Push(1, Nil))))))))
  const S16_12 := Push(7, Push(15, Push(125, Push(137, Push(41, Push(5, Push(1, Nil)))))))
  const S16_13 := Push(7, Push(125, Push(137, Push(41, Push(5, Push(1, Nil))))))
  const S16_14 :=
    Push(1, Push(3, Push(5, Push(13, Push(17, Push(29, Push(49, Push(137, Push(41, Push(5, Push(1,
    Nil)))))))))))
  const S16_15 := Push(1, Push(1, Push(5, Push(17, Push(29, Push(49, Push(137, Push(41, Push(5, Push(1, Nil))))))))))
  const S16_16 := Push(1, Push(3, Push(5, Push(29, Push(49, Push(137, Push(41, Push(5, Push(1, Nil)))))))))
  const S16_17 := Push(3, Push(7, Push(13, Push(49, Push(137, Push(41, Push(5, Push(1, Nil))))))))
  const S16_18 := Push(3, Push(5, Push(49, Push(137, Push(41, Push(5, Push(1, Nil)))))))
  const S16_19 := Push(3, Push(5, Push(9, Push(25, Push(137, Push(41, Push(5, Push(1, Nil))))))))
  const S16_20 := Push(1, Push(1, Push(25, Push(137, Push(41, Push(5, Push(1, Nil)))))))
  const S16_21 := Push(1, Push(11, Push(137, Push(41, Push(5, Push(1, Nil))))))
  const S16_22 := Push(33, Push(23, Push(39, Push(39, Push(41, Push(5, Push(1, Nil)))))))
  const S16_23 := Push(3, Push(1, Push(1, Push(13, Push(23, Push(39, Push(39, Push(41, Push(5, Push(1, Nil))))))))))
  const S16_24 := Push(3, Push(23, Push(39, Push(39, Push(41, Push(5, Push(1, Nil)))))))
  const S16_25 := Push(1, Push(3, Push(7, Push(39, Push(39, Push(41, Push(5, Push(1, Nil))))))))
  const S16_26 := Push(3, Push(1, Push(5, Push(9, Push(17, Push(39, Push(41, Push(5, Push(1, Nil)))))))))
  const S16_27 := Push(1, Push(1, Push(1, Push(17, Push(39, Push(41, Push(5, Push(1, Nil))))))))
  const S16_28 := Push(3, Push(1, Push(1, Push(39, Push(41, Push(5, Push(1, Nil)))))))
  const S16_29 := Push(1, Push(1, Push(3, Push(9, Push(15, Push(41, Push(5, Push(1, Nil))))))))
  const S16_30 := Push(9, Push(5, Push(41, Push(5, Push(1, Nil)))))
  const S16_31 := Push(33, Push(7, Push(5, Push(1, Nil))))
  const S16_32 := Push(9, Push(9, Push(7, Push(5, Push(1, Nil)))))
  const S16_33 := Push(1, Push(1, Push(1, Push(7, Push(5, Push(1, Nil))))))
  const S16_34 := Push(1, Nil)

  lemma Tab16Row0() ensures Row(TAB16_0, S16_1) == S16_0 {}
  lemma Tab16Row1() ensures Row(TAB16_1, S16_2) == S16_1 {}
  lemma Tab16Row2() ensures Row(TAB16_2, S16_3) == S16_2 {}
  lemma Tab16Row3() ensures Row(TAB16_3, S16_4) == S16_3 {}
  lemma Tab16Row4() ensures Row(TAB16_4, S16_5) == S16_4 {}
  lemma Tab16Row5() ensures Row(TAB16_5, S16_6) == S16_5 {}
  lemma Tab16Row6() ensures Row(TAB16_6, S16_7) == S16_6 {}
  lemma Tab16Row7() ensures Row(TAB16_7, S16_8) == S16_7 {}
  lemma Tab16Row8() ensures Row(TAB16_8, S16_9) == S16_8 {}
  lemma Tab16Row9() ensures Row(TAB16_9, S16_10) == S16_9 {}
  lemma Tab16Row10() ensures Row(TAB16_10, S16_11) == S16_10 {}
  lemma Tab16Row11() ensures Row(TAB16_11, S16_12) == S16_11 {}
  lemma Tab16Row12() ensures Row(TAB16_12, S16_13) == S16_12 {}
  lemma Tab16Row13() ensures Row(TAB16_13, S16_14) == S16_13 {}
  lemma Tab16Row14() ensures Row(TAB16_14, S16_15) == S16_14 {}
  lemma Tab16Row15() ensures Row(TAB16_15, S16_16) == S16_15 {}
  lemma Tab16Row16() ensures Row(TAB16_16, S16_17) == S16_16 {}
  lemma Tab16Row17() ensures Row(TAB16_17, S16_18) == S16_17 {}
  lemma Tab16Row18() ensures Row(TAB16_18, S16_19) == S16_18 {}
  lemma Tab16Row19() ensures Row(TAB16_19, S16_20) == S16_19 {}
  lemma Tab16Row20() ensures Row(TAB16_20, S16_21) == S16_20 {}
  lemma Tab16Row21() ensures Row(TAB16_21, S16_22) == S16_21 {}
  lemma Tab16Row22() ensures Row(TAB16_22, S16_23) == S16_22 {}
  lemma Tab16Row23() ensures Row(TAB16_23, S16_24) == S16_23 {}
  lemma Tab16Row24() ensures Row(TAB16_24, S16_25) == S16_24 {}
  lemma Tab16Row25() ensures Row(TAB16_25, S16_26) == S16_25 {}
  lemma Tab16Row26() ensures Row(TAB16_26, S16_27) == S16_26 {}
  lemma Tab16Row27() ensures Row(TAB16_27, S16_28) == S16_27 {}
  lemma Tab16Row28() ensures Row(TAB16_28, S16_29) == S16_28 {}
  lemma Tab16Row29() ensures Row(TAB16_29, S16_30) == S16_29 {}
  lemma Tab16Row30() ensures Row(TAB16_30, S16_31) == S16_30 {}
  lemma Tab16Row31() ensures Row(TAB16_31, S16_32) == S16_31 {}
  lemma Tab16Row32() ensures Row(TAB16_32, S16_33) == S16_32 {}
  lemma Tab16Row33() ensures Row(TAB16_33, S16_34) == S16_33 {}

  lemma Tab16Last()
    ensures ShortRow(TAB16_34, 0, Nil) == S16_34
  {
    LastRow(TAB16_34);
  }

  lemma Tab16From30()
    ensures Stacked(TAB16, 30) == S16_30
  {
    hide Row, ShortRow, Stacked, TAB16_0, TAB16_1, TAB16_2, TAB16_3, TAB16_4, TAB16_5,
      TAB16_6, TAB16_7, TAB16_8, TAB16_9, TAB16_10, TAB16_11, TAB16_12, TAB16_13, TAB16_14,
      TAB16_15, TAB16_16, TAB16_17, TAB16_18, TAB16_19, TAB16_20, TAB16_21, TAB16_22, TAB16_23,
      TAB16_24, TAB16_25, TAB16_26, TAB16_27, TAB16_28, TAB16_29, TAB16_30, TAB16_31, TAB16_32,
      TAB16_33, TAB16_34, S16_1, S16_2, S16_3, S16_4, S16_5, S16_6, S16_7,
      S16_8, S16_9, S16_10, S16_11, S16_12, S16_13, S16_14, S16_15, S16_16,
      S16_17, S16_18, S16_19, S16_20, S16_21, S16_22, S16_23, S16_24, S16_25,
      S16_26, S16_27, S16_28, S16_29, S16_30, S16_31, S16_32, S16_33, S16_34;
    Tab16Row30();
    Tab16Row31();
    Tab16Row32();
    Tab16Row33();
    OneRow(TAB16, 30);
    OneRow(TAB16, 31);
    OneRow(TAB16, 32);
    OneRow(TAB16, 33);
    NoRow(TAB16);
    Tab16Last();
  }

  lemma Tab16From25()
    ensures Stacked(TAB16, 25) == S16_25
  {
    hide Row, ShortRow, Stacked, TAB16_0, TAB16_1, TAB16_2, TAB16_3, TAB16_4, TAB16_5,
      TAB16_6, TAB16_7, TAB16_8, TAB16_9, TAB16_10, TAB16_11, TAB16_12, TAB16_13, TAB16_14,
      TAB16_15, TAB16_16, TAB16_17, TAB16_18, TAB16_19, TAB16_20, TAB16_21, TAB16_22, TAB16_23,
      TAB16_24, TAB16_25, TAB16_26, TAB16_27, TAB16_28, TAB16_29, TAB16_30, TAB16_31, TAB16_32,
      TAB16_33, TAB16_34, S16_1, S16_2, S16_3, S16_4, S16_5, S16_6, S16_7,
      S16_8, S16_9, S16_10, S16_11, S16_12, S16_13, S16_14, S16_15, S16_16,
      S16_17, S16_18, S16_19, S16_20, S16_21, S16_22, S16_23, S16_24, S16_25,
      S16_26, S16_27, S16_28, S16_29, S16_30, S16_31, S16_32, S16_33, S16_34;
    Tab16Row25();
    Tab16Row26();
    Tab16Row27();
    Tab16Row28();
    Tab16Row29();
    Tab16From30();
    FiveRows(TAB16, 25);
  }

  lemma Tab16From20()
    ensures Stacked(TAB16, 20) == S16_20
  {
    hide Row, ShortRow, Stacked, TAB16_0, TAB16_1, TAB16_2, TAB16_3, TAB16_4, TAB16_5,
      TAB16_6, TAB16_7, TAB16_8, TAB16_9, TAB16_10, TAB16_11, TAB16_12, TAB16_13, TAB16_14,
      TAB16_15, TAB16_16, TAB16_17, TAB16_18, TAB16_19, TAB16_20, TAB16_21, TAB16_22, TAB16_23,
      TAB16_24, TAB16_25, TAB16_26, TAB16_27, TAB16_28, TAB16_29, TAB16_30, TAB16_31, TAB16_32,
      TAB16_33, TAB16_34, S16_1, S16_2, S16_3, S16_4, S16_5, S16_6, S16_7,
      S16_8, S16_9, S16_10, S16_11, S16_12, S16_13, S16_14, S16_15, S16_16,
      S16_17, S16_18, S16_19, S16_20, S16_21, S16_22, S16_23, S16_24, S16_25,
      S16_26, S16_27, S16_28, S16_29, S16_30, S16_31, S16_32, S16_33, S16_34;
    Tab16Row20();
    Tab16Row21();
    Tab16Row22();
    Tab16Row23();
    Tab16Row24();
    Tab16From25();
    FiveRows(TAB16, 20);
  }

  lemma Tab16From15()
    ensures Stacked(TAB16, 15) == S16_15
  {
    hide Row, ShortRow, Stacked, TAB16_0, TAB16_1, TAB16_2, TAB16_3, TAB16_4, TAB16_5,
      TAB16_6, TAB16_7, TAB16_8, TAB16_9, TAB16_10, TAB16_11, TAB16_12, TAB16_13, TAB16_14,
      TAB16_15, TAB16_16, TAB16_17, TAB16_18, TAB16_19, TAB16_20, TAB16_21, TAB16_22, TAB16_23,
      TAB16_24, TAB16_25, TAB16_26, TAB16_27, TAB16_28, TAB16_29, TAB16_30, TAB16_31, TAB16_32,
      TAB16_33, TAB16_34, S16_1, S16_2, S16_3, S16_4, S16_5, S16_6, S16_7,
      S16_8, S16_9, S16_10, S16_11, S16_12, S16_13, S16_14, S16_15, S16_16,
      S16_17, S16_18, S16_19, S16_20, S16_21, S16_22, S16_23, S16_24, S16_25,
      S16_26, S16_27, S16_28, S16_29, S16_30, S16_31, S16_32, S16_33, S16_34;
    Tab16Row15();
    Tab16Row16();
    Tab16Row17();
    Tab16Row18();
    Tab16Row19();
    Tab16From20();
    FiveRows(TAB16, 15);
  }

  lemma Tab16From10()
    ensures Stacked(TAB16, 10) == S16_10
  {
    hide Row, ShortRow, Stacked, TAB16_0, TAB16_1, TAB16_2, TAB16_3, TAB16_4, TAB16_5,
      TAB16_6, TAB16_7, TAB16_8, TAB16_9, TAB16_10, TAB16_11, TAB16_12, TAB16_13, TAB16_14,
      TAB16_15, TAB16_16, TAB16_17, TAB16_18, TAB16_19, TAB16_20, TAB16_21, TAB16_22, TAB16_23,
      TAB16_24, TAB16_25, TAB16_26, TAB16_27, TAB16_28, TAB16_29, TAB16_30, TAB16_31, TAB16_32,
      TAB16_33, TAB16_34, S16_1, S16_2, S16_3, S16_4, S16_5, S16_6, S16_7,
      S16_8, S16_9, S16_10, S16_11, S16_12, S16_13, S16_14, S16_15, S16_16,
      S16_17, S16_18, S16_19, S16_20, S16_21, S16_22, S16_23, S16_24, S16_25,
      S16_26, S16_27, S16_28, S16_29, S16_30, S16_31, S16_32, S16_33, S16_34;
    Tab16Row10();
    Tab16Row11();
    Tab16Row12();
    Tab16Row13();
    Tab16Row14();
    Tab16From15();
    FiveRows(TAB16, 10);
  }

  lemma Tab16From5()
    ensures Stacked(TAB16, 5) == S16_5
  {
    hide Row, ShortRow, Stacked, TAB16_0, TAB16_1, TAB16_2, TAB16_3, TAB16_4, TAB16_5,
      TAB16_6, TAB16_7, TAB16_8, TAB16_9, TAB16_10, TAB16_11, TAB16_12, TAB16_13, TAB16_14,
      TAB16_15, TAB16_16, TAB16_17, TAB16_18, TAB16_19, TAB16_20, TAB16_21, TAB16_22, TAB16_23,
      TAB16_24, TAB16_25, TAB16_26, TAB16_27, TAB16_28, TAB16_29, TAB16_30, TAB16_31, TAB16_32,
      TAB16_33, TAB16_34, S16_1, S16_2, S16_3, S16_4, S16_5, S16_6, S16_7,
      S16_8, S16_9, S16_10, S16_11, S16_12, S16_13, S16_14, S16_15, S16_16,
      S16_17, S16_18, S16_19, S16_20, S16_21, S16_22, S16_23, S16_24, S16_25,
      S16_26, S16_27, S16_28, S16_29, S16_30, S16_31, S16_32, S16_33, S16_34;
    Tab16Row5();
    Tab16Row6();
    Tab16Row7();
    Tab16Row8();
    Tab16Row9();
    Tab16From10();
    FiveRows(TAB16, 5);
  }

  lemma Tab16IsCode()
    ensures IsCode(Table(TAB16, 0))
  {
    hide Row, ShortRow, Stacked, TAB16_0, TAB16_1, TAB16_2, TAB16_3, TAB16_4, TAB16_5,
      TAB16_6, TAB16_7, TAB16_8, TAB16_9, TAB16_10, TAB16_11, TAB16_12, TAB16_13, TAB16_14,
      TAB16_15, TAB16_16, TAB16_17, TAB16_18, TAB16_19, TAB16_20, TAB16_21, TAB16_22, TAB16_23,
      TAB16_24, TAB16_25, TAB16_26, TAB16_27, TAB16_28, TAB16_29, TAB16_30, TAB16_31, TAB16_32,
      TAB16_33, TAB16_34, S16_1, S16_2, S16_3, S16_4, S16_5, S16_6, S16_7,
      S16_8, S16_9, S16_10, S16_11, S16_12, S16_13, S16_14, S16_15, S16_16,
      S16_17, S16_18, S16_19, S16_20, S16_21, S16_22, S16_23, S16_24, S16_25,
      S16_26, S16_27, S16_28, S16_29, S16_30, S16_31, S16_32, S16_33, S16_34;
    Tab16Row0();
    Tab16Row1();
    Tab16Row2();
    Tab16Row3();
    Tab16Row4();
    Tab16From5();
    FiveRows(TAB16, 0);
    TableIsCode(TAB16);
  }

  // ---- tab24 ----

  const TAB24_0: seq<int> := [-451, -117, -43, -25, -15, -7, -3, -1, 239, 254, -1, 223, 253, -3, -1]
  const TAB24_1: seq<int> := [207, 252, -1, 191, 251, -5, -1, 250, -1, 175, 159, -1, 249, 248, -9]
  const TAB24_2: seq<int> := [-5, -3, -1, 143, 127, 247, -1, 111, 246, -3, -1, 95, 245, -1, 79]
  const TAB24_3: seq<int> := [244, -71, -7, -3, -1, 63, 243, -1, 47, 242, -5, -1, 241, -1, 31]
  const TAB24_4: seq<int> := [240, -25, -9, -1, 15, -3, -1, 238, 222, -1, 237, 206, -7, -3, -1]
  const TAB24_5: seq<int> := [236, 221, -1, 190, 235, -3, -1, 205, 220, -1, 174, 234, -15, -7, -3]
  const TAB24_6: seq<int> := [-1, 189, 219, -1, 204, 158, -3, -1, 233, 173, -1, 218, 188, -7, -3]
  const TAB24_7: seq<int> := [-1, 203, 142, -1, 232, 157, -3, -1, 217, 126, -1, 231, 172, 255, -235]
  const TAB24_8: seq<int> := [-143, -77, -45, -25, -15, -7, -3, -1, 202, 187, -1, 141, 216, -5, -3]
  const TAB24_9: seq<int> := [-1, 14, 224, 13, 230, -5, -3, -1, 110, 156, 201, -1, 94, 186, -9]
  const TAB24_10: seq<int> := [-5, -1, 229, -1, 171, 125, -1, 215, 228, -3, -1, 140, 200, -3, -1]
  const TAB24_11: seq<int> := [78, 46, 62, -15, -7, -3, -1, 109, 214, -1, 227, 155, -3, -1, 185]
  const TAB24_12: seq<int> := [170, -1, 226, 30, -7, -3, -1, 225, 93, -1, 213, 124, -3, -1, 199]
  const TAB24_13: seq<int> := [77, -1, 139, 184, -31, -15, -7, -3, -1, 212, 154, -1, 169, 108, -3]
  const TAB24_14: seq<int> := [-1, 198, 61, -1, 211, 45, -7, -3, -1, 210, 29, -1, 123, 183, -3]
  const TAB24_15: seq<int> := [-1, 209, 92, -1, 197, 138, -17, -7, -3, -1, 168, 153, -1, 76, 196]
  const TAB24_16: seq<int> := [-3, -1, 107, 182, -3, -1, 208, 12, 60, -7, -3, -1, 195, 122, -1]
  const TAB24_17: seq<int> := [167, 44, -3, -1, 194, 91, -1, 181, 28, -57, -35, -19, -7, -3, -1]
  const TAB24_18: seq<int> := [137, 152, -1, 193, 75, -5, -3, -1, 192, 11, 59, -3, -1, 176, 10]
  const TAB24_19: seq<int> := [26, -5, -1, 180, -1, 106, 166, -3, -1, 121, 151, -3, -1, 160, 9]
  const TAB24_20: seq<int> := [144, -9, -3, -1, 179, 136, -3, -1, 43, 90, 178, -7, -3, -1, 165]
  const TAB24_21: seq<int> := [27, -1, 177, 105, -1, 150, 164, -17, -9, -5, -3, -1, 74, 120, 135]
  const TAB24_22: seq<int> := [-1, 58, 163, -3, -1, 89, 149, -1, 42, 162, -7, -3, -1, 161, 104]
  const TAB24_23: seq<int> := [-1, 134, 119, -3, -1, 73, 148, -1, 57, 147, -63, -31, -15, -7, -3]
  const TAB24_24: seq<int> := [-1, 88, 133, -1, 41, 103, -3, -1, 118, 146, -1, 25, 145, -7, -3]
  const TAB24_25: seq<int> := [-1, 72, 132, -1, 87, 117, -3, -1, 56, 131, -1, 102, 40, -17, -7]
  const TAB24_26: seq<int> := [-3, -1, 130, 24, -1, 71, 116, -5, -1, 129, -1, 8, 128, -1, 86]
  const TAB24_27: seq<int> := [101, -7, -5, -1, 23, -1, 7, 112, 115, -3, -1, 55, 39, 114, -15]
  const TAB24_28: seq<int> := [-7, -3, -1, 70, 100, -1, 85, 113, -3, -1, 54, 99, -1, 69, 84]
  const TAB24_29: seq<int> := [-7, -3, -1, 38, 98, -1, 22, 97, -5, -3, -1, 6, 96, 53, -1]
  const TAB24_30: seq<int> := [83, 68, -51, -37, -23, -15, -9, -3, -1, 37, 82, -1, 21, -1, 5]
  const TAB24_31: seq<int> := [80, -1, 81, -1, 52, 67, -3, -1, 36, 66, -1, 51, 20, -9, -5]
  const TAB24_32: seq<int> := [-1, 65, -1, 4, 64, -1, 35, 50, -1, 19, 49, -7, -5, -3, -1]
  const TAB24_33: seq<int> := [3, 48, 34, 18, -1, 33, -1, 2, 32, -3, -1, 17, 1, -1, 16]
  const TAB24_34: seq<int> := [0]

  const TAB24 := Rows(
    [
      TAB24_0, TAB24_1, TAB24_2, TAB24_3, TAB24_4, TAB24_5, TAB24_6, TAB24_7,
      TAB24_8, TAB24_9, TAB24_10, TAB24_11, TAB24_12, TAB24_13, TAB24_14, TAB24_15,
      TAB24_16, TAB24_17, TAB24_18, TAB24_19, TAB24_20, TAB24_21, TAB24_22, TAB24_23,
      TAB24_24, TAB24_25, TAB24_26, TAB24_27, TAB24_28, TAB24_29, TAB24_30, TAB24_31,
      TAB24_32, TAB24_33],
    TAB24_34)

  const S24_0 := Push(511, Nil)
  const S24_1 := Push(1, Push(1, Push(3, Push(9, Push(17, Push(73, Push(333, Push(59, Nil))))))))
  const S24_2 := Push(9, Push(7, Push(73, Push(333, Push(59, Nil)))))
  const S24_3 := Push(1, Push(73, Push(333, Push(59, Nil))))
  const S24_4 := Push(1, Push(57, Push(1, Push(333, Push(59, Nil)))))
  const S24_5 := Push(1, Push(1, Push(3, Push(7, Push(31, Push(1, Push(333, Push(59, Nil))))))))
  const S24_6 := Push(3, Push(3, Push(7, Push(15, Push(1, Push(333, Push(59, Nil)))))))
  const S24_7 := Push(3, Push(3, Push(7, Push(1, Push(333, Push(59, Nil))))))
  const S24_8 := Push(235, Push(97, Push(59, Nil)))
  const S24_9 := Push(3, Push(1, Push(1, Push(9, Push(19, Push(31, Push(65, Push(91, Push(97, Push(59, Nil))))))))))
  const S24_10 := Push(9, Push(9, Push(31, Push(65, Push(91, Push(97, Push(59, Nil)))))))
  const S24_11 := Push(1, Push(1, Push(1, Push(31, Push(65, Push(91, Push(97, Push(59, Nil))))))))
  const S24_12 := Push(1, Push(3, Push(15, Push(65, Push(91, Push(97, Push(59, Nil)))))))
  const S24_13 := Push(1, Push(3, Push(65, Push(91, Push(97, Push(59, Nil))))))
  const S24_14 := Push(3, Push(3, Push(15, Push(33, Push(91, Push(97, Push(59, Nil)))))))
  const S24_15 := Push(3, Push(3, Push(33, Push(91, Push(97, Push(59, Nil))))))
  const S24_16 := Push(9, Push(15, Push(91, Push(97, Push(59, Nil)))))
  const S24_17 := Push(1, Push(1, Push(7, Push(91, Push(97, Push(59, Nil))))))
  const S24_18 := Push(1, Push(1, Push(3, Push(11, Push(15, Push(21, Push(33, Push(97, Push(59, Nil)))))))))
  const S24_19 := Push(1, Push(15, Push(21, Push(33, Push(97, Push(59, Nil))))))
  const S24_20 := Push(1, Push(21, Push(33, Push(97, Push(59, Nil)))))
  const S24_21 := Push(1, Push(3, Push(3, Push(33, Push(97, Push(59, Nil))))))
  const S24_22 := Push(3, Push(7, Push(15, Push(97, Push(59, Nil)))))
  const S24_23 := Push(3, Push(7, Push(97, Push(59, Nil))))
  const S24_24 := Push(3, Push(3, Push(7, Push(15, Push(31, Push(33, Push(59, Nil)))))))
  const S24_25 := Push(3, Push(3, Push(7, Push(31, Push(33, Push(59, Nil))))))
  const S24_26 := Push(7, Push(9, Push(13, Push(33, Push(59, Nil)))))
  const S24_27 := Push(1, Push(13, Push(33, Push(59, Nil))))
  const S24_28 := Push(15, Push(17, Push(59, Nil)))
  const S24_29 := Push(17, Push(59, Nil))
  const S24_30 := Push(1, Push(1, Push(59, Nil)))
  const S24_31 := Push(1, Push(5, Push(7, Push(13, Push(13, Push(7, Nil))))))
  const S24_32 := Push(5, Push(3, Push(3, Push(13, Push(7, Nil)))))
  const S24_33 := Push(1, Push(1, Push(1, Push(1, Push(5, Push(7, Nil))))))
  const S24_34 := Push(1, Nil)

  lemma Tab24Row0() ensures Row(TAB24_0, S24_1) == S24_0 {}
  lemma Tab24Row1() ensures Row(TAB24_1, S24_2) == S24_1 {}
  lemma Tab24Row2() ensures Row(TAB24_2, S24_3) == S24_2 {}
  lemma Tab24Row3() ensures Row(TAB24_3, S24_4) == S24_3 {}
  lemma Tab24Row4() ensures Row(TAB24_4, S24_5) == S24_4 {}
  lemma Tab24Row5() ensures Row(TAB24_5, S24_6) == S24_5 {}
  lemma Tab24Row6() ensures Row(TAB24_6, S24_7) == S24_6 {}
  lemma Tab24Row7() ensures Row(TAB24_7, S24_8) == S24_7 {}
  lemma Tab24Row8() ensures Row(TAB24_8, S24_9) == S24_8 {}
  lemma Tab24Row9() ensures Row(TAB24_9, S24_10) == S24_9 {}
  lemma Tab24Row10() ensures Row(TAB24_10, S24_11) == S24_10 {}
  lemma Tab24Row11() ensures Row(TAB24_11, S24_12) == S24_11 {}
  lemma Tab24Row12() ensures Row(TAB24_12, S24_13) == S24_12 {}
  lemma Tab24Row13() ensures Row(TAB24_13, S24_14) == S24_13 {}
  lemma Tab24Row14() ensures Row(TAB24_14, S24_15) == S24_14 {}
  lemma Tab24Row15() ensures Row(TAB24_15, S24_16) == S24_15 {}
  lemma Tab24Row16() ensures Row(TAB24_16, S24_17) == S24_16 {}
  lemma Tab24Row17() ensures Row(TAB24_17, S24_18) == S24_17 {}
  lemma Tab24Row18() ensures Row(TAB24_18, S24_19) == S24_18 {}
  lemma Tab24Row19() ensures Row(TAB24_19, S24_20) == S24_19 {}
  lemma Tab24Row20() ensures Row(TAB24_20, S24_21) == S24_20 {}
  lemma Tab24Row21() ensures Row(TAB24_21, S24_22) == S24_21 {}
  lemma Tab24Row22() ensures Row(TAB24_22, S24_23) == S24_22 {}
  lemma Tab24Row23() ensures Row(TAB24_23, S24_24) == S24_23 {}
  lemma Tab24Row24() ensures Row(TAB24_24, S24_25) == S24_24 {}
  lemma Tab24Row25() ensures Row(TAB24_25, S24_26) == S24_25 {}
  lemma Tab24Row26() ensures Row(TAB24_26, S24_27) == S24_26 {}
  lemma Tab24Row27() ensures Row(TAB24_27, S24_28) == S24_27 {}
  lemma Tab24Row28() ensures Row(TAB24_28, S24_29) == S24_28 {}
  lemma Tab24Row29() ensures Row(TAB24_29, S24_30) == S24_29 {}
  lemma Tab24Row30() ensures Row(TAB24_30, S24_31) == S24_30 {}
  lemma Tab24Row31() ensures Row(TAB24_31, S24_32) == S24_31 {}
  lemma Tab24Row32() ensures Row(TAB24_32, S24_33) == S24_32 {}
  lemma Tab24Row33() ensures Row(TAB24_33, S24_34) == S24_33 {}

  lemma Tab24Last()
    ensures ShortRow(TAB24_34, 0, Nil) == S24_34
  {
    LastRow(TAB24_34);
  }

  lemma Tab24From30()
    ensures Stacked(TAB24, 30) == S24_30
  {
    hide Row, ShortRow, Stacked, TAB24_0, TAB24_1, TAB24_2, TAB24_3, TAB24_4, TAB24_5,
      TAB24_6, TAB24_7, TAB24_8, TAB24_9, TAB24_10, TAB24_11, TAB24_12, TAB24_13, TAB24_14,
      TAB24_15, TAB24_16, TAB24_17, TAB24_18, TAB24_19, TAB24_20, TAB24_21, TAB24_22, TAB24_23,
      TAB24_24, TAB24_25, TAB24_26, TAB24_27, TAB24_28, TAB24_29, TAB24_30, TAB24_31, TAB24_32,
      TAB24_33, TAB24_34, S24_1, S24_2, S24_3, S24_4, S24_5, S24_6, S24_7,
      S24_8, S24_9, S24_10, S24_11, S24_12, S24_13, S24_14, S24_15, S24_16,
      S24_17, S24_18, S24_19, S24_20, S24_21, S24_22, S24_23, S24_24, S24_25,
      S24_26, S24_27, S24_28, S24_29, S24_30, S24_31, S24_32, S24_33, S24_34;
    Tab24Row30();
    Tab24Row31();
    Tab24Row32();
    Tab24Row33();
    OneRow(TAB24, 30);
    OneRow(TAB24, 31);
    OneRow(TAB24, 32);
    OneRow(TAB24, 33);
    NoRow(TAB24);
    Tab24Last();
  }

  lemma Tab24From25()
    ensures Stacked(TAB24, 25) == S24_25
  {
    hide Row, ShortRow, Stacked, TAB24_0, TAB24_1, TAB24_2, TAB24_3, TAB24_4, TAB24_5,
      TAB24_6, TAB24_7, TAB24_8, TAB24_9, TAB24_10, TAB24_11, TAB24_12, TAB24_13, TAB24_14,
      TAB24_15, TAB24_16, TAB24_17, TAB24_18, TAB24_19, TAB24_20, TAB24_21, TAB24_22, TAB24_23,
      TAB24_24, TAB24_25, TAB24_26, TAB24_27, TAB24_28, TAB24_29, TAB24_30, TAB24_31, TAB24_32,
      TAB24_33, TAB24_34, S24_1, S24_2, S24_3, S24_4, S24_5, S24_6, S24_7,
      S24_8, S24_9, S24_10, S24_11, S24_12, S24_13, S24_14, S24_15, S24_16,
      S24_17, S24_18, S24_19, S24_20, S24_21, S24_22, S24_23, S24_24, S24_25,
      S24_26, S24_27, S24_28, S24_29, S24_30, S24_31, S24_32, S24_33, S24_34;
    Tab24Row25();
    Tab24Row26();
    Tab24Row27();
    Tab24Row28();
    Tab24Row29();
    Tab24From30();
    FiveRows(TAB24, 25);
  }

  lemma Tab24From20()
    ensures Stacked(TAB24, 20) == S24_20
  {
    hide Row, ShortRow, Stacked, TAB24_0, TAB24_1, TAB24_2, TAB24_3, TAB24_4, TAB24_5,
      TAB24_6, TAB24_7, TAB24_8, TAB24_9, TAB24_10, TAB24_11, TAB24_12, TAB24_13, TAB24_14,
      TAB24_15, TAB24_16, TAB24_17, TAB24_18, TAB24_19, TAB24_20, TAB24_21, TAB24_22, TAB24_23,
      TAB24_24, TAB24_25, TAB24_26, TAB24_27, TAB24_28, TAB24_29, TAB24_30, TAB24_31, TAB24_32,
      TAB24_33, TAB24_34, S24_1, S24_2, S24_3, S24_4, S24_5, S24_6, S24_7,
      S24_8, S24_9, S24_10, S24_11, S24_12, S24_13, S24_14, S24_15, S24_16,
      S24_17, S24_18, S24_19, S24_20, S24_21, S24_22, S24_23, S24_24, S24_25,
      S24_26, S24_27, S24_28, S24_29, S24_30, S24_31, S24_32, S24_33, S24_34;
    Tab24Row20();
    Tab24Row21();
    Tab24Row22();
    Tab24Row23();
    Tab24Row24();
    Tab24From25();
    FiveRows(TAB24, 20);
  }

  lemma Tab24From15()
    ensures Stacked(TAB24, 15) == S24_15
  {
    hide Row, ShortRow, Stacked, TAB24_0, TAB24_1, TAB24_2, TAB24_3, TAB24_4, TAB24_5,
      TAB24_6, TAB24_7, TAB24_8, TAB24_9, TAB24_10, TAB24_11, TAB24_12, TAB24_13, TAB24_14,
      TAB24_15, TAB24_16, TAB24_17, TAB24_18, TAB24_19, TAB24_20, TAB24_21, TAB24_22, TAB24_23,
      TAB24_24, TAB24_25, TAB24_26, TAB24_27, TAB24_28, TAB24_29, TAB24_30, TAB24_31, TAB24_32,
      TAB24_33, TAB24_34, S24_1, S24_2, S24_3, S24_4, S24_5, S24_6, S24_7,
      S24_8, S24_9, S24_10, S24_11, S24_12, S24_13, S24_14, S24_15, S24_16,
      S24_17, S24_18, S24_19, S24_20, S24_21, S24_22, S24_23, S24_24, S24_25,
      S24_26, S24_27, S24_28, S24_29, S24_30, S24_31, S24_32, S24_33, S24_34;
    Tab24Row15();
    Tab24Row16();
    Tab24Row17();
    Tab24Row18();
    Tab24Row19();
    Tab24From20();
    FiveRows(TAB24, 15);
  }

  lemma Tab24From10()
    ensures Stacked(TAB24, 10) == S24_10
  {
    hide Row, ShortRow, Stacked, TAB24_0, TAB24_1, TAB24_2, TAB24_3, TAB24_4, TAB24_5,
      TAB24_6, TAB24_7, TAB24_8, TAB24_9, TAB24_10, TAB24_11, TAB24_12, TAB24_13, TAB24_14,
      TAB24_15, TAB24_16, TAB24_17, TAB24_18, TAB24_19, TAB24_20, TAB24_21, TAB24_22, TAB24_23,
      TAB24_24, TAB24_25, TAB24_26, TAB24_27, TAB24_28, TAB24_29, TAB24_30, TAB24_31, TAB24_32,
      TAB24_33, TAB24_34, S24_1, S24_2, S24_3, S24_4, S24_5, S24_6, S24_7,
      S24_8, S24_9, S24_10, S24_11, S24_12, S24_13, S24_14, S24_15, S24_16,
      S24_17, S24_18, S24_19, S24_20, S24_21, S24_22, S24_23, S24_24, S24_25,
      S24_26, S24_27, S24_28, S24_29, S24_30, S24_31, S24_32, S24_33, S24_34;
    Tab24Row10();
    Tab24Row11();
    Tab24Row12();
    Tab24Row13();
    Tab24Row14();
    Tab24From15();
    FiveRows(TAB24, 10);
  }

  lemma Tab24From5()
    ensures Stacked(TAB24, 5) == S24_5
  {
    hide Row, ShortRow, Stacked, TAB24_0, TAB24_1, TAB24_2, TAB24_3, TAB24_4, TAB24_5,
      TAB24_6, TAB24_7, TAB24_8, TAB24_9, TAB24_10, TAB24_11, TAB24_12, TAB24_13, TAB24_14,
      TAB24_15, TAB24_16, TAB24_17, TAB24_18, TAB24_19, TAB24_20, TAB24_21, TAB24_22, TAB24_23,
      TAB24_24, TAB24_25, TAB24_26, TAB24_27, TAB24_28, TAB24_29, TAB24_30, TAB24_31, TAB24_32,
      TAB24_33, TAB24_34, S24_1, S24_2, S24_3, S24_4, S24_5, S24_6, S24_7,
      S24_8, S24_9, S24_10, S24_11, S24_12, S24_13, S24_14, S24_15, S24_16,
      S24_17, S24_18, S24_19, S24_20, S24_21, S24_22, S24_23, S24_24, S24_25,
      S24_26, S24_27, S24_28, S24_29, S24_30, S24_31, S24_32, S24_33, S24_34;
    Tab24Row5();
    Tab24Row6();
    Tab24Row7();
    Tab24Row8();
    Tab24Row9();
    Tab24From10();
    FiveRows(TAB24, 5);
  }

  lemma Tab24IsCode()
    ensures IsCode(Table(TAB24, 0))
  {
    hide Row, ShortRow, Stacked, TAB24_0, TAB24_1, TAB24_2, TAB24_3, TAB24_4, TAB24_5,
      TAB24_6, TAB24_7, TAB24_8, TAB24_9, TAB24_10, TAB24_11, TAB24_12, TAB24_13, TAB24_14,
      TAB24_15, TAB24_16, TAB24_17, TAB24_18, TAB24_19, TAB24_20, TAB24_21, TAB24_22, TAB24_23,
      TAB24_24, TAB24_25, TAB24_26, TAB24_27, TAB24_28, TAB24_29, TAB24_30, TAB24_31, TAB24_32,
      TAB24_33, TAB24_34, S24_1, S24_2, S24_3, S24_4, S24_5, S24_6, S24_7,
      S24_8, S24_9, S24_10, S24_11, S24_12, S24_13, S24_14, S24_15, S24_16,
      S24_17, S24_18, S24_19, S24_20, S24_21, S24_22, S24_23, S24_24, S24_25,
      S24_26, S24_27, S24_28, S24_29, S24_30, S24_31, S24_32, S24_33, S24_34;
    Tab24Row0();
    Tab24Row1();
    Tab24Row2();
    Tab24Row3();
    Tab24Row4();
    Tab24From5();
    FiveRows(TAB24, 0);
    TableIsCode(TAB24);
  }
}
