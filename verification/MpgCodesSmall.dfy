/** The shorter tables of formats/mp3/huffman.h, in the rows they have there. */
module MpgCodesSmall {
  import opened MpgHuffman
  import opened MpgCodes

  // ---- tab0 ----

  const TAB0_0: seq<int> := [0]

  const TAB0 := Rows([], TAB0_0)

  const S0_0 := Push(1, Nil)

  lemma Tab0Last()
    ensures ShortRow(TAB0_0, 0, Nil) == S0_0
  {
    LastRow(TAB0_0);
  }

  lemma Tab0IsCode()
    ensures IsCode(Table(TAB0, 0))
  {
    hide Row, ShortRow, Stacked, TAB0_0;
    NoRow(TAB0);
    Tab0Last();
    TableIsCode(TAB0);
  }

  // ---- tab1 ----

  const TAB1_0: seq<int> := [-5, -3, -1, 17, 1, 16, 0]

  const TAB1 := Rows([], TAB1_0)

  const S1_0 := Push(7, Nil)

  lemma Tab1Last()
    ensures ShortRow(TAB1_0, 0, Nil) == S1_0
  {
    LastRow(TAB1_0);
  }

  lemma Tab1IsCode()
    ensures IsCode(Table(TAB1, 0))
  {
    hide Row, ShortRow, Stacked, TAB1_0;
    NoRow(TAB1);
    Tab1Last();
    TableIsCode(TAB1);
  }

  // ---- tab2 ----

  const TAB2_0: seq<int> := [-15, -11, -9, -5, -3, -1, 34, 2, 18, -1, 33, 32, 17, -1, 1]
  const TAB2_1: seq<int> := [16, 0]

  const TAB2 := Rows([TAB2_0], TAB2_1)

  const S2_0 := Push(17, Nil)
  const S2_1 := Push(1, Push(1, Nil))

  lemma Tab2Row0() ensures Row(TAB2_0, S2_1) == S2_0 {}

  lemma Tab2Last()
    ensures ShortRow(TAB2_1, 0, Nil) == S2_1
  {
    LastRow(TAB2_1);
  }

  lemma Tab2IsCode()
    ensures IsCode(Table(TAB2, 0))
  {
    hide Row, ShortRow, Stacked, TAB2_0, TAB2_1, S2_1;
    Tab2Row0();
    OneRow(TAB2, 0);
    NoRow(TAB2);
    Tab2Last();
    TableIsCode(TAB2);
  }

  // ---- tab3 ----

  const TAB3_0: seq<int> := [-13, -11, -9, -5, -3, -1, 34, 2, 18, -1, 33, 32, 16, 17, -1]
  const TAB3_1: seq<int> := [1, 0]

  const TAB3 := Rows([TAB3_0], TAB3_1)

  const S3_0 := Push(17, Nil)
  const S3_1 := Push(1, Push(1, Nil))

  lemma Tab3Row0() ensures Row(TAB3_0, S3_1) == S3_0 {}

  lemma Tab3Last()
    ensures ShortRow(TAB3_1, 0, Nil) == S3_1
  {
    LastRow(TAB3_1);
  }

  lemma Tab3IsCode()
    ensures IsCode(Table(TAB3, 0))
  {
    hide Row, ShortRow, Stacked, TAB3_0, TAB3_1, S3_1;
    Tab3Row0();
    OneRow(TAB3, 0);
    NoRow(TAB3);
    Tab3Last();
    TableIsCode(TAB3);
  }

  // ---- tab5 ----

  const TAB5_0: seq<int> := [-29, -25, -23, -15, -7, -5, -3, -1, 51, 35, 50, 49, -3, -1, 19]
  const TAB5_1: seq<int> := [3, -1, 48, 34, -3, -1, 18, 33, -1, 2, 32, 17, -1, 1, 16]
  const TAB5_2: seq<int> := [0]

  const TAB5 := Rows([TAB5_0, TAB5_1], TAB5_2)

  const S5_0 := Push(31, Nil)
  const S5_1 := Push(1, Push(3, Push(7, Push(1, Push(3, Push(1, Nil))))))
  const S5_2 := Push(1, Nil)

  lemma Tab5Row0() ensures Row(TAB5_0, S5_1) == S5_0 {}
  lemma Tab5Row1() ensures Row(TAB5_1, S5_2) == S5_1 {}

  lemma Tab5Last()
    ensures ShortRow(TAB5_2, 0, Nil) == S5_2
  {
    LastRow(TAB5_2);
  }

  lemma Tab5IsCode()
    ensures IsCode(Table(TAB5, 0))
  {
    hide Row, ShortRow, Stacked, TAB5_0, TAB5_1, TAB5_2, S5_1, S5_2;
    Tab5Row0();
    Tab5Row1();
    OneRow(TAB5, 0);
    OneRow(TAB5, 1);
    NoRow(TAB5);
    Tab5Last();
    TableIsCode(TAB5);
  }

  // ---- tab6 ----

  const TAB6_0: seq<int> := [-25, -19, -13, -9, -5, -3, -1, 51, 3, 35, -1, 50, 48, -1, 19]
  const TAB6_1: seq<int> := [49, -3, -1, 34, 2, 18, -3, -1, 33, 32, 1, -1, 17, -1, 16]
  const TAB6_2: seq<int> := [0]

  const TAB6 := Rows([TAB6_0, TAB6_1], TAB6_2)

  const S6_0 := Push(31, Nil)
  const S6_1 := Push(1, Push(5, Push(5, Push(5, Nil))))
  const S6_2 := Push(1, Nil)

  lemma Tab6Row0() ensures Row(TAB6_0, S6_1) == S6_0 {}
  lemma Tab6Row1() ensures Row(TAB6_1, S6_2) == S6_1 {}

  lemma Tab6Last()
    ensures ShortRow(TAB6_2, 0, Nil) == S6_2
  {
    LastRow(TAB6_2);
  }

  lemma Tab6IsCode()
    ensures IsCode(Table(TAB6, 0))
  {
    hide Row, ShortRow, Stacked, TAB6_0, TAB6_1, TAB6_2, S6_1, S6_2;
    Tab6Row0();
    Tab6Row1();
    OneRow(TAB6, 0);
    OneRow(TAB6, 1);
    NoRow(TAB6);
    Tab6Last();
    TableIsCode(TAB6);
  }

  // ---- tab7 ----

  const TAB7_0: seq<int> := [-69, -65, -57, -39, -29, -17, -11, -7, -3, -1, 85, 69, -1, 84, 83]
  const TAB7_1: seq<int> := [-1, 53, 68, -3, -1, 37, 82, 21, -5, -1, 81, -1, 5, 52, -1]
  const TAB7_2: seq<int> := [80, -1, 67, 51, -5, -3, -1, 36, 66, 20, -1, 65, 64, -11, -7]
  const TAB7_3: seq<int> := [-3, -1, 4, 35, -1, 50, 3, -1, 19, 49, -3, -1, 48, 34, 18]
  const TAB7_4: seq<int> := [-5, -1, 33, -1, 2, 32, 17, -1, 1, 16, 0]

  const TAB7 := Rows([TAB7_0, TAB7_1, TAB7_2, TAB7_3], TAB7_4)

  const S7_0 := Push(71, Nil)
  const S7_1 := Push(3, Push(5, Push(11, Push(9, Push(17, Push(7, Push(3, Push(1, Nil))))))))
  const S7_2 := Push(1, Push(3, Push(9, Push(17, Push(7, Push(3, Push(1, Nil)))))))
  const S7_3 := Push(7, Push(3, Push(5, Push(7, Push(3, Push(1, Nil))))))
  const S7_4 := Push(7, Push(3, Push(1, Nil)))

  lemma Tab7Row0() ensures Row(TAB7_0, S7_1) == S7_0 {}
  lemma Tab7Row1() ensures Row(TAB7_1, S7_2) == S7_1 {}
  lemma Tab7Row2() ensures Row(TAB7_2, S7_3) == S7_2 {}
  lemma Tab7Row3() ensures Row(TAB7_3, S7_4) == S7_3 {}

  lemma Tab7Last()
    ensures ShortRow(TAB7_4, 0, Nil) == S7_4
  {
    LastRow(TAB7_4);
  }

  lemma Tab7IsCode()
    ensures IsCode(Table(TAB7, 0))
  {
    hide Row, ShortRow, Stacked, TAB7_0, TAB7_1, TAB7_2, TAB7_3, TAB7_4, S7_1,
      S7_2, S7_3, S7_4;
    Tab7Row0();
    Tab7Row1();
    Tab7Row2();
    Tab7Row3();
    OneRow(TAB7, 0);
    OneRow(TAB7, 1);
    OneRow(TAB7, 2);
    OneRow(TAB7, 3);
    NoRow(TAB7);
    Tab7Last();
    TableIsCode(TAB7);
  }

  // ---- tab8 ----

  const TAB8_0: seq<int> := [-65, -63, -59, -45, -31, -19, -13, -7, -5, -3, -1, 85, 84, 69, 83]
  const TAB8_1: seq<int> := [-3, -1, 53, 68, 37, -3, -1, 82, 5, 21, -5, -1, 81, -1, 52]
  const TAB8_2: seq<int> := [67, -3, -1, 80, 51, 36, -5, -3, -1, 66, 20, 65, -3, -1, 4]
  const TAB8_3: seq<int> := [64, -1, 35, 50, -9, -7, -3, -1, 19, 49, -1, 3, 48, 34, -1]
  const TAB8_4: seq<int> := [2, 32, -1, 18, 33, 17, -3, -1, 1, 16, 0]

  const TAB8 := Rows([TAB8_0, TAB8_1, TAB8_2, TAB8_3], TAB8_4)

  const S8_0 := Push(71, Nil)
  const S8_1 := Push(5, Push(5, Push(11, Push(13, Push(13, Push(3, Push(1, Push(5, Nil))))))))
  const S8_2 := Push(1, Push(5, Push(13, Push(13, Push(3, Push(1, Push(5, Nil)))))))
  const S8_3 := Push(1, Push(3, Push(13, Push(3, Push(1, Push(5, Nil))))))
  const S8_4 := Push(1, Push(1, Push(3, Push(1, Push(5, Nil)))))

  lemma Tab8Row0() ensures Row(TAB8_0, S8_1) == S8_0 {}
  lemma Tab8Row1() ensures Row(TAB8_1, S8_2) == S8_1 {}
  lemma Tab8Row2() ensures Row(TAB8_2, S8_3) == S8_2 {}
  lemma Tab8Row3() ensures Row(TAB8_3, S8_4) == S8_3 {}

  lemma Tab8Last()
    ensures ShortRow(TAB8_4, 0, Nil) == S8_4
  {
    LastRow(TAB8_4);
  }

  lemma Tab8IsCode()
    ensures IsCode(Table(TAB8, 0))
  {
    hide Row, ShortRow, Stacked, TAB8_0, TAB8_1, TAB8_2, TAB8_3, TAB8_4, S8_1,
      S8_2, S8_3, S8_4;
    Tab8Row0();
    Tab8Row1();
    Tab8Row2();
    Tab8Row3();
    OneRow(TAB8, 0);
    OneRow(TAB8, 1);
    OneRow(TAB8, 2);
    OneRow(TAB8, 3);
    NoRow(TAB8);
    Tab8Last();
    TableIsCode(TAB8);
  }

  // ---- tab9 ----

  const TAB9_0: seq<int> := [-63, -53, -41, -29, -19, -11, -5, -3, -1, 85, 69, 53, -1, 83, -1]
  const TAB9_1: seq<int> := [84, 5, -3, -1, 68, 37, -1, 82, 21, -3, -1, 81, 52, -1, 67]
  const TAB9_2: seq<int> := [-1, 80, 4, -7, -3, -1, 36, 66, -1, 51, 64, -1, 20, 65, -5]
  const TAB9_3: seq<int> := [-3, -1, 35, 50, 19, -1, 49, -1, 3, 48, -5, -3, -1, 34, 2]
  const TAB9_4: seq<int> := [18, -1, 33, 32, -3, -1, 17, 1, -1, 16, 0]

  const TAB9 := Rows([TAB9_0, TAB9_1, TAB9_2, TAB9_3], TAB9_4)

  const S9_0 := Push(71, Nil)
  const S9_1 := Push(1, Push(1, Push(7, Push(9, Push(11, Push(11, Push(9, Push(7, Nil))))))))
  const S9_2 := Push(3, Push(11, Push(11, Push(9, Push(7, Nil)))))
  const S9_3 := Push(5, Push(5, Push(9, Push(7, Nil))))
  const S9_4 := Push(1, Push(3, Push(7, Nil)))

  lemma Tab9Row0() ensures Row(TAB9_0, S9_1) == S9_0 {}
  lemma Tab9Row1() ensures Row(TAB9_1, S9_2) == S9_1 {}
  lemma Tab9Row2() ensures Row(TAB9_2, S9_3) == S9_2 {}
  lemma Tab9Row3() ensures Row(TAB9_3, S9_4) == S9_3 {}

  lemma Tab9Last()
    ensures ShortRow(TAB9_4, 0, Nil) == S9_4
  {
    LastRow(TAB9_4);
  }

  lemma Tab9IsCode()
    ensures IsCode(Table(TAB9, 0))
  {
    hide Row, ShortRow, Stacked, TAB9_0, TAB9_1, TAB9_2, TAB9_3, TAB9_4, S9_1,
      S9_2, S9_3, S9_4;
    Tab9Row0();
    Tab9Row1();
    Tab9Row2();
    Tab9Row3();
    OneRow(TAB9, 0);
    OneRow(TAB9, 1);
    OneRow(TAB9, 2);
    OneRow(TAB9, 3);
    NoRow(TAB9);
    Tab9Last();
    TableIsCode(TAB9);
  }

  // ---- tab10 ----

  const TAB10_0: seq<int> := [-125, -121, -111, -83, -55, -35, -21, -13, -7, -3, -1, 119, 103, -1, 118]
  const TAB10_1: seq<int> := [87, -3, -1, 117, 102, 71, -3, -1, 116, 86, -1, 101, 55, -9, -3]
  const TAB10_2: seq<int> := [-1, 115, 70, -3, -1, 85, 84, 99, -1, 39, 114, -11, -5, -3, -1]
  const TAB10_3: seq<int> := [100, 7, 112, -1, 98, -1, 69, 53, -5, -1, 6, -1, 83, 68, 23]
  const TAB10_4: seq<int> := [-17, -5, -1, 113, -1, 54, 38, -5, -3, -1, 37, 82, 21, -1, 81]
  const TAB10_5: seq<int> := [-1, 52, 67, -3, -1, 22, 97, -1, 96, -1, 5, 80, -19, -11, -7]
  const TAB10_6: seq<int> := [-3, -1, 36, 66, -1, 51, 4, -1, 20, 65, -3, -1, 64, 35, -1]
  const TAB10_7: seq<int> := [50, 3, -3, -1, 19, 49, -1, 48, 34, -7, -3, -1, 18, 33, -1]
  const TAB10_8: seq<int> := [2, 32, 17, -1, 1, 16, 0]

  const TAB10 := Rows([TAB10_0, TAB10_1, TAB10_2, TAB10_3, TAB10_4, TAB10_5, TAB10_6, TAB10_7], TAB10_8)

  const S10_0 := Push(127, Nil)
  const S10_1 := Push(1, Push(5, Push(7, Push(13, Push(19, Push(27, Push(27, Push(9, Push(3, Push(1, Nil))))))))))
  const S10_2 := Push(3, Push(5, Push(3, Push(19, Push(27, Push(27, Push(9, Push(3, Push(1, Nil)))))))))
  const S10_3 := Push(1, Push(1, Push(1, Push(5, Push(7, Push(27, Push(27, Push(9, Push(3, Push(1, Nil))))))))))
  const S10_4 := Push(27, Push(27, Push(9, Push(3, Push(1, Nil)))))
  const S10_5 := Push(3, Push(9, Push(27, Push(9, Push(3, Push(1, Nil))))))
  const S10_6 := Push(7, Push(3, Push(7, Push(7, Push(9, Push(3, Push(1, Nil)))))))
  const S10_7 := Push(1, Push(1, Push(7, Push(9, Push(3, Push(1, Nil))))))
  const S10_8 := Push(1, Push(1, Push(1, Push(3, Push(1, Nil)))))

  lemma Tab10Row0() ensures Row(TAB10_0, S10_1) == S10_0 {}
  lemma Tab10Row1() ensures Row(TAB10_1, S10_2) == S10_1 {}
  lemma Tab10Row2() ensures Row(TAB10_2, S10_3) == S10_2 {}
  lemma Tab10Row3() ensures Row(TAB10_3, S10_4) == S10_3 {}
  lemma Tab10Row4() ensures Row(TAB10_4, S10_5) == S10_4 {}
  lemma Tab10Row5() ensures Row(TAB10_5, S10_6) == S10_5 {}
  lemma Tab10Row6() ensures Row(TAB10_6, S10_7) == S10_6 {}
  lemma Tab10Row7() ensures Row(TAB10_7, S10_8) == S10_7 {}

  lemma Tab10Last()
    ensures ShortRow(TAB10_8, 0, Nil) == S10_8
  {
    LastRow(TAB10_8);
  }

  lemma Tab10IsCode()
    ensures IsCode(Table(TAB10, 0))
  {
    hide Row, ShortRow, Stacked, TAB10_0, TAB10_1, TAB10_2, TAB10_3, TAB10_4, TAB10_5,
      TAB10_6, TAB10_7, TAB10_8, S10_1, S10_2, S10_3, S10_4, S10_5, S10_6,
      S10_7, S10_8;
    Tab10Row0();
    Tab10Row1();
    Tab10Row2();
    Tab10Row3();
    Tab10Row4();
    Tab10Row5();
    Tab10Row6();
    Tab10Row7();
    FiveRows(TAB10, 0);
    OneRow(TAB10, 5);
    OneRow(TAB10, 6);
    OneRow(TAB10, 7);
    NoRow(TAB10);
    Tab10Last();
    TableIsCode(TAB10);
  }

  // ---- tab11 ----

  const TAB11_0: seq<int> := [-121, -113, -89, -59, -43, -27, -17, -7, -3, -1, 119, 103, -1, 118, 117]
  const TAB11_1: seq<int> := [-3, -1, 102, 71, -1, 116, -1, 87, 85, -5, -3, -1, 86, 101, 55]
  const TAB11_2: seq<int> := [-1, 115, 70, -9, -7, -3, -1, 69, 84, -1, 53, 83, 39, -1, 114]
  const TAB11_3: seq<int> := [-1, 100, 7, -5, -1, 113, -1, 23, 112, -3, -1, 54, 99, -1, 96]
  const TAB11_4: seq<int> := [-1, 68, 37, -13, -7, -5, -3, -1, 82, 5, 21, 98, -3, -1, 38]
  const TAB11_5: seq<int> := [6, 22, -5, -1, 97, -1, 81, 52, -5, -1, 80, -1, 67, 51, -1]
  const TAB11_6: seq<int> := [36, 66, -15, -11, -7, -3, -1, 20, 65, -1, 4, 64, -1, 35, 50]
  const TAB11_7: seq<int> := [-1, 19, 49, -5, -3, -1, 3, 48, 34, 33, -5, -1, 18, -1, 2]
  const TAB11_8: seq<int> := [32, 17, -3, -1, 1, 16, 0]

  const TAB11 := Rows([TAB11_0, TAB11_1, TAB11_2, TAB11_3, TAB11_4, TAB11_5, TAB11_6, TAB11_7], TAB11_8)

  const S11_0 := Push(127, Nil)
  const S11_1 := Push(9, Push(9, Push(15, Push(15, Push(29, Push(23, Push(7, Push(5, Nil))))))))
  const S11_2 := Push(3, Push(15, Push(15, Push(29, Push(23, Push(7, Push(5, Nil)))))))
  const S11_3 := Push(3, Push(15, Push(29, Push(23, Push(7, Push(5, Nil))))))
  const S11_4 := Push(3, Push(29, Push(23, Push(7, Push(5, Nil)))))
  const S11_5 := Push(1, Push(1, Push(15, Push(23, Push(7, Push(5, Nil))))))
  const S11_6 := Push(1, Push(1, Push(23, Push(7, Push(5, Nil)))))
  const S11_7 := Push(3, Push(7, Push(7, Push(5, Nil))))
  const S11_8 := Push(1, Push(1, Push(5, Nil)))

  lemma Tab11Row0() ensures Row(TAB11_0, S11_1) == S11_0 {}
  lemma Tab11Row1() ensures Row(TAB11_1, S11_2) == S11_1 {}
  lemma Tab11Row2() ensures Row(TAB11_2, S11_3) == S11_2 {}
  lemma Tab11Row3() ensures Row(TAB11_3, S11_4) == S11_3 {}
  lemma Tab11Row4() ensures Row(TAB11_4, S11_5) == S11_4 {}
  lemma Tab11Row5() ensures Row(TAB11_5, S11_6) == S11_5 {}
  lemma Tab11Row6() ensures Row(TAB11_6, S11_7) == S11_6 {}
  lemma Tab11Row7() ensures Row(TAB11_7, S11_8) == S11_7 {}

  lemma Tab11Last()
    ensures ShortRow(TAB11_8, 0, Nil) == S11_8
  {
    LastRow(TAB11_8);
  }

  lemma Tab11IsCode()
    ensures IsCode(Table(TAB11, 0))
  {
    hide Row, ShortRow, Stacked, TAB11_0, TAB11_1, TAB11_2, TAB11_3, TAB11_4, TAB11_5,
      TAB11_6, TAB11_7, TAB11_8, S11_1, S11_2, S11_3, S11_4, S11_5, S11_6,
      S11_7, S11_8;
    Tab11Row0();
    Tab11Row1();
    Tab11Row2();
    Tab11Row3();
    Tab11Row4();
    Tab11Row5();
    Tab11Row6();
    Tab11Row7();
    FiveRows(TAB11, 0);
    OneRow(TAB11, 5);
    OneRow(TAB11, 6);
    OneRow(TAB11, 7);
    NoRow(TAB11);
    Tab11Last();
    TableIsCode(TAB11);
  }

  // ---- tab12 ----

  const TAB12_0: seq<int> := [-115, -99, -73, -45, -27, -17, -9, -5, -3, -1, 119, 103, 118, -1, 87]
  const TAB12_1: seq<int> := [117, -3, -1, 102, 71, -1, 116, 101, -3, -1, 86, 55, -3, -1, 115]
  const TAB12_2: seq<int> := [85, 39, -7, -3, -1, 114, 70, -1, 100, 23, -5, -1, 113, -1, 7]
  const TAB12_3: seq<int> := [112, -1, 54, 99, -13, -9, -3, -1, 69, 84, -1, 68, -1, 6, 5]
  const TAB12_4: seq<int> := [-1, 38, 98, -5, -1, 97, -1, 22, 96, -3, -1, 53, 83, -1, 37]
  const TAB12_5: seq<int> := [82, -17, -7, -3, -1, 21, 81, -1, 52, 67, -5, -3, -1, 80, 4]
  const TAB12_6: seq<int> := [36, -1, 66, 20, -3, -1, 51, 65, -1, 35, 50, -11, -7, -5, -3]
  const TAB12_7: seq<int> := [-1, 64, 3, 48, 19, -1, 49, 34, -1, 18, 33, -7, -5, -3, -1]
  const TAB12_8: seq<int> := [2, 32, 0, 17, -1, 1, 16]

  const TAB12 := Rows([TAB12_0, TAB12_1, TAB12_2, TAB12_3, TAB12_4, TAB12_5, TAB12_6, TAB12_7], TAB12_8)

  const S12_0 := Push(127, Nil)
  const S12_1 := Push(1, Push(7, Push(9, Push(17, Push(27, Push(25, Push(15, Push(11, Nil))))))))
  const S12_2 := Push(1, Push(1, Push(17, Push(27, Push(25, Push(15, Push(11, Nil)))))))
  const S12_3 := Push(1, Push(3, Push(27, Push(25, Push(15, Push(11, Nil))))))
  const S12_4 := Push(3, Push(13, Push(25, Push(15, Push(11, Nil)))))
  const S12_5 := Push(1, Push(25, Push(15, Push(11, Nil))))
  const S12_6 := Push(1, Push(3, Push(7, Push(15, Push(11, Nil)))))
  const S12_7 := Push(3, Push(1, Push(1, Push(3, Push(3, Push(11, Nil))))))
  const S12_8 := Push(1, Push(1, Push(1, Push(1, Push(3, Nil)))))

  lemma Tab12Row0() ensures Row(TAB12_0, S12_1) == S12_0 {}
  lemma Tab12Row1() ensures Row(TAB12_1, S12_2) == S12_1 {}
  lemma Tab12Row2() ensures Row(TAB12_2, S12_3) == S12_2 {}
  lemma Tab12Row3() ensures Row(TAB12_3, S12_4) == S12_3 {}
  lemma Tab12Row4() ensures Row(TAB12_4, S12_5) == S12_4 {}
  lemma Tab12Row5() ensures Row(TAB12_5, S12_6) == S12_5 {}
  lemma Tab12Row6() ensures Row(TAB12_6, S12_7) == S12_6 {}
  lemma Tab12Row7() ensures Row(TAB12_7, S12_8) == S12_7 {}

  lemma Tab12Last()
    ensures ShortRow(TAB12_8, 0, Nil) == S12_8
  {
    LastRow(TAB12_8);
  }

  lemma Tab12IsCode()
    ensures IsCode(Table(TAB12, 0))
  {
    hide Row, ShortRow, Stacked, TAB12_0, TAB12_1, TAB12_2, TAB12_3, TAB12_4, TAB12_5,
      TAB12_6, TAB12_7, TAB12_8, S12_1, S12_2, S12_3, S12_4, S12_5, S12_6,
      S12_7, S12_8;
    Tab12Row0();
    Tab12Row1();
    Tab12Row2();
    Tab12Row3();
    Tab12Row4();
    Tab12Row5();
    Tab12Row6();
    Tab12Row7();
    FiveRows(TAB12, 0);
    OneRow(TAB12, 5);
    OneRow(TAB12, 6);
    OneRow(TAB12, 7);
    NoRow(TAB12);
    Tab12Last();
    TableIsCode(TAB12);
  }

  // ---- tab_c0 ----

  const TAB_C0_0: seq<int> := [-29, -21, -13, -7, -3, -1, 11, 15, -1, 13, 14, -3, -1, 7, 5]
  const TAB_C0_1: seq<int> := [9, -3, -1, 6, 3, -1, 10, 12, -3, -1, 2, 1, -1, 4, 8]
  const TAB_C0_2: seq<int> := [0]

  const TAB_C0 := Rows([TAB_C0_0, TAB_C0_1], TAB_C0_2)

  const SC0_0 := Push(31, Nil)
  const SC0_1 := Push(1, Push(7, Push(7, Push(1, Nil))))
  const SC0_2 := Push(1, Nil)

  lemma Tab_c0Row0() ensures Row(TAB_C0_0, SC0_1) == SC0_0 {}
  lemma Tab_c0Row1() ensures Row(TAB_C0_1, SC0_2) == SC0_1 {}

  lemma Tab_c0Last()
    ensures ShortRow(TAB_C0_2, 0, Nil) == SC0_2
  {
    LastRow(TAB_C0_2);
  }

  lemma Tab_c0IsCode()
    ensures IsCode(Table(TAB_C0, 0))
  {
    hide Row, ShortRow, Stacked, TAB_C0_0, TAB_C0_1, TAB_C0_2, SC0_1, SC0_2;
    Tab_c0Row0();
    Tab_c0Row1();
    OneRow(TAB_C0, 0);
    OneRow(TAB_C0, 1);
    NoRow(TAB_C0);
    Tab_c0Last();
    TableIsCode(TAB_C0);
  }

  // ---- tab_c1 ----

  const TAB_C1_0: seq<int> := [-15, -7, -3, -1, 15, 14, -1, 13, 12, -3, -1, 11, 10, -1, 9]
  const TAB_C1_1: seq<int> := [8, -7, -3, -1, 7, 6, -1, 5, 4, -3, -1, 3, 2, -1, 1]
  const TAB_C1_2: seq<int> := [0]

  const TAB_C1 := Rows([TAB_C1_0, TAB_C1_1], TAB_C1_2)

  const SC1_0 := Push(31, Nil)
  const SC1_1 := Push(1, Push(15, Nil))
  const SC1_2 := Push(1, Nil)

  lemma Tab_c1Row0() ensures Row(TAB_C1_0, SC1_1) == SC1_0 {}
  lemma Tab_c1Row1() ensures Row(TAB_C1_1, SC1_2) == SC1_1 {}

  lemma Tab_c1Last()
    ensures ShortRow(TAB_C1_2, 0, Nil) == SC1_2
  {
    LastRow(TAB_C1_2);
  }

  lemma Tab_c1IsCode()
    ensures IsCode(Table(TAB_C1, 0))
  {
    hide Row, ShortRow, Stacked, TAB_C1_0, TAB_C1_1, TAB_C1_2, SC1_1, SC1_2;
    Tab_c1Row0();
    Tab_c1Row1();
    OneRow(TAB_C1, 0);
    OneRow(TAB_C1, 1);
    NoRow(TAB_C1);
    Tab_c1Last();
    TableIsCode(TAB_C1);
  }
}
