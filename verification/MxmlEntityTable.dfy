/** The table of named entities in menuselect/mxml/mxml-entity.c: it is sorted, as the binary search expects. */
module MxmlEntityTable {
  import opened MxmlSave
  import MxmlLoad
  import opened MxmlRoundTrip
  import opened MxmlEntities

  /** `a` is in front of `b`, and their first difference is at `k`. */
  predicate Before(a: string, b: string, k: nat) {
    && k <= |a| && k < |b| && (forall i :: 0 <= i < k ==> a[i] == b[i])
    && (k == |a| || a[k] < b[k])
  }

  lemma {:induction false} BeforeLess(a: string, b: string, k: nat)
    requires Before(a, b, k)
    ensures Compare(a, b) < 0
  {
    if k > 0 {
      assert forall i :: 0 <= i < k - 1 ==> a[1..][i] == a[i + 1] && b[1..][i] == b[i + 1];
      BeforeLess(a[1..], b[1..], k - 1);
    }
  }

  /** Eight entries and the name behind them are in ascending order, with their differences at `k`. */
  predicate Row(c: seq<Entity>, next: string, k: seq<nat>) {
    && |c| == |k| == 8
    && Before(c[0].name, c[1].name, k[0]) && Before(c[1].name, c[2].name, k[1])
    && Before(c[2].name, c[3].name, k[2]) && Before(c[3].name, c[4].name, k[3])
    && Before(c[4].name, c[5].name, k[4]) && Before(c[5].name, c[6].name, k[5])
    && Before(c[6].name, c[7].name, k[6]) && Before(c[7].name, next, k[7])
  }

  predicate Rising(c: seq<Entity>, next: string) {
    && |c| == 8
    && (forall i {:trigger c[i]} :: 0 <= i < 7 ==> Compare(c[i].name, c[i + 1].name) < 0)
    && Compare(c[7].name, next) < 0
  }

  lemma RowRises(c: seq<Entity>, next: string, k: seq<nat>)
    requires Row(c, next, k)
    ensures Rising(c, next)
  {
    hide Before, Compare;
    BeforeLess(c[0].name, c[1].name, k[0]);
    BeforeLess(c[1].name, c[2].name, k[1]);
    BeforeLess(c[2].name, c[3].name, k[2]);
    BeforeLess(c[3].name, c[4].name, k[3]);
    BeforeLess(c[4].name, c[5].name, k[4]);
    BeforeLess(c[5].name, c[6].name, k[5]);
    BeforeLess(c[6].name, c[7].name, k[6]);
    BeforeLess(c[7].name, next, k[7]);
  }

  function E0(): seq<Entity> {
    [Entity("AElig", 198), Entity("Aacute", 193), Entity("Acirc", 194), Entity("Agrave", 192),
    Entity("Alpha", 913), Entity("Aring", 197), Entity("Atilde", 195), Entity("Auml", 196)]
  }

  function E1(): seq<Entity> {
    [Entity("Beta", 914), Entity("Ccedil", 199), Entity("Chi", 935), Entity("Dagger", 8225),
    Entity("Delta", 916), Entity("Dstrok", 208), Entity("ETH", 208), Entity("Eacute", 201)]
  }

  function E2(): seq<Entity> {
    [Entity("Ecirc", 202), Entity("Egrave", 200), Entity("Epsilon", 917), Entity("Eta", 919),
    Entity("Euml", 203), Entity("Gamma", 915), Entity("Iacute", 205), Entity("Icirc", 206)]
  }

  function E3(): seq<Entity> {
    [Entity("Igrave", 204), Entity("Iota", 921), Entity("Iuml", 207), Entity("Kappa", 922),
    Entity("Lambda", 923), Entity("Mu", 924), Entity("Ntilde", 209), Entity("Nu", 925)]
  }

  function E4(): seq<Entity> {
    [Entity("OElig", 338), Entity("Oacute", 211), Entity("Ocirc", 212), Entity("Ograve", 210),
    Entity("Omega", 937), Entity("Omicron", 927), Entity("Oslash", 216), Entity("Otilde", 213)]
  }

  function E5(): seq<Entity> {
    [Entity("Ouml", 214), Entity("Phi", 934), Entity("Pi", 928), Entity("Prime", 8243),
    Entity("Psi", 936), Entity("Rho", 929), Entity("Scaron", 352), Entity("Sigma", 931)]
  }

  function E6(): seq<Entity> {
    [Entity("THORN", 222), Entity("Tau", 932), Entity("Theta", 920), Entity("Uacute", 218),
    Entity("Ucirc", 219), Entity("Ugrave", 217), Entity("Upsilon", 933), Entity("Uuml", 220)]
  }

  function E7(): seq<Entity> {
    [Entity("Xi", 926), Entity("Yacute", 221), Entity("Yuml", 376), Entity("Zeta", 918),
    Entity("aacute", 225), Entity("acirc", 226), Entity("acute", 180), Entity("aelig", 230)]
  }

  function E8(): seq<Entity> {
    [Entity("agrave", 224), Entity("alefsym", 8501), Entity("alpha", 945), Entity("amp", 38),
    Entity("and", 8743), Entity("ang", 8736), Entity("aring", 229), Entity("asymp", 8776)]
  }

  function E9(): seq<Entity> {
    [Entity("atilde", 227), Entity("auml", 228), Entity("bdquo", 8222), Entity("beta", 946),
    Entity("brkbar", 166), Entity("brvbar", 166), Entity("bull", 8226), Entity("cap", 8745)]
  }

  function E10(): seq<Entity> {
    [Entity("ccedil", 231), Entity("cedil", 184), Entity("cent", 162), Entity("chi", 967),
    Entity("circ", 710), Entity("clubs", 9827), Entity("cong", 8773), Entity("copy", 169)]
  }

  function E11(): seq<Entity> {
    [Entity("crarr", 8629), Entity("cup", 8746), Entity("curren", 164), Entity("dArr", 8659),
    Entity("dagger", 8224), Entity("darr", 8595), Entity("deg", 176), Entity("delta", 948)]
  }

  function E12(): seq<Entity> {
    [Entity("diams", 9830), Entity("die", 168), Entity("divide", 247), Entity("eacute", 233),
    Entity("ecirc", 234), Entity("egrave", 232), Entity("empty", 8709), Entity("emsp", 8195)]
  }

  function E13(): seq<Entity> {
    [Entity("ensp", 8194), Entity("epsilon", 949), Entity("equiv", 8801), Entity("eta", 951),
    Entity("eth", 240), Entity("euml", 235), Entity("euro", 8364), Entity("exist", 8707)]
  }

  function E14(): seq<Entity> {
    [Entity("fnof", 402), Entity("forall", 8704), Entity("frac12", 189), Entity("frac14", 188),
    Entity("frac34", 190), Entity("frasl", 8260), Entity("gamma", 947), Entity("ge", 8805)]
  }

  function E15(): seq<Entity> {
    [Entity("gt", 62), Entity("hArr", 8660), Entity("harr", 8596), Entity("hearts", 9829),
    Entity("hellip", 8230), Entity("hibar", 175), Entity("iacute", 237), Entity("icirc", 238)]
  }

  function E16(): seq<Entity> {
    [Entity("iexcl", 161), Entity("igrave", 236), Entity("image", 8465), Entity("infin", 8734),
    Entity("int", 8747), Entity("iota", 953), Entity("iquest", 191), Entity("isin", 8712)]
  }

  function E17(): seq<Entity> {
    [Entity("iuml", 239), Entity("kappa", 954), Entity("lArr", 8656), Entity("lambda", 955),
    Entity("lang", 9001), Entity("laquo", 171), Entity("larr", 8592), Entity("lceil", 8968)]
  }

  function E18(): seq<Entity> {
    [Entity("ldquo", 8220), Entity("le", 8804), Entity("lfloor", 8970), Entity("lowast", 8727),
    Entity("loz", 9674), Entity("lrm", 8206), Entity("lsaquo", 8249), Entity("lsquo", 8216)]
  }

  function E19(): seq<Entity> {
    [Entity("lt", 60), Entity("macr", 175), Entity("mdash", 8212), Entity("micro", 181),
    Entity("middot", 183), Entity("minus", 8722), Entity("mu", 956), Entity("nabla", 8711)]
  }

  function E20(): seq<Entity> {
    [Entity("nbsp", 160), Entity("ndash", 8211), Entity("ne", 8800), Entity("ni", 8715),
    Entity("not", 172), Entity("notin", 8713), Entity("nsub", 8836), Entity("ntilde", 241)]
  }

  function E21(): seq<Entity> {
    [Entity("nu", 957), Entity("oacute", 243), Entity("ocirc", 244), Entity("oelig", 339),
    Entity("ograve", 242), Entity("oline", 8254), Entity("omega", 969), Entity("omicron", 959)]
  }

  function E22(): seq<Entity> {
    [Entity("oplus", 8853), Entity("or", 8744), Entity("ordf", 170), Entity("ordm", 186),
    Entity("oslash", 248), Entity("otilde", 245), Entity("otimes", 8855), Entity("ouml", 246)]
  }

  function E23(): seq<Entity> {
    [Entity("para", 182), Entity("part", 8706), Entity("permil", 8240), Entity("perp", 8869),
    Entity("phi", 966), Entity("pi", 960), Entity("piv", 982), Entity("plusmn", 177)]
  }

  function E24(): seq<Entity> {
    [Entity("pound", 163), Entity("prime", 8242), Entity("prod", 8719), Entity("prop", 8733),
    Entity("psi", 968), Entity("quot", 34), Entity("rArr", 8658), Entity("radic", 8730)]
  }

  function E25(): seq<Entity> {
    [Entity("rang", 9002), Entity("raquo", 187), Entity("rarr", 8594), Entity("rceil", 8969),
    Entity("rdquo", 8221), Entity("real", 8476), Entity("reg", 174), Entity("rfloor", 8971)]
  }

  function E26(): seq<Entity> {
    [Entity("rho", 961), Entity("rlm", 8207), Entity("rsaquo", 8250), Entity("rsquo", 8217),
    Entity("sbquo", 8218), Entity("scaron", 353), Entity("sdot", 8901), Entity("sect", 167)]
  }

  function E27(): seq<Entity> {
    [Entity("shy", 173), Entity("sigma", 963), Entity("sigmaf", 962), Entity("sim", 8764),
    Entity("spades", 9824), Entity("sub", 8834), Entity("sube", 8838), Entity("sum", 8721)]
  }

  function E28(): seq<Entity> {
    [Entity("sup", 8835), Entity("sup1", 185), Entity("sup2", 178), Entity("sup3", 179),
    Entity("supe", 8839), Entity("szlig", 223), Entity("tau", 964), Entity("there4", 8756)]
  }

  function E29(): seq<Entity> {
    [Entity("theta", 952), Entity("thetasym", 977), Entity("thinsp", 8201), Entity("thorn", 254),
    Entity("tilde", 732), Entity("times", 215), Entity("trade", 8482), Entity("uArr", 8657)]
  }

  function E30(): seq<Entity> {
    [Entity("uacute", 250), Entity("uarr", 8593), Entity("ucirc", 251), Entity("ugrave", 249),
    Entity("uml", 168), Entity("upsih", 978), Entity("upsilon", 965), Entity("uuml", 252)]
  }

  function E31(): seq<Entity> {
    [Entity("weierp", 8472), Entity("xi", 958), Entity("yacute", 253), Entity("yen", 165),
    Entity("yuml", 255), Entity("zeta", 950), Entity("zwj", 8205), Entity("zwnj", 8204)]
  }


  function Rows(): seq<seq<Entity>> {
    [E0(), E1(), E2(), E3(), E4(), E5(), E6(), E7(), E8(), E9(), E10(), E11(),
    E12(), E13(), E14(), E15(), E16(), E17(), E18(), E19(), E20(), E21(), E22(), E23(),
    E24(), E25(), E26(), E27(), E28(), E29(), E30(), E31()]
  }

  lemma Row0() ensures Rising(E0(), E1()[0].name) { RowRises(E0(), E1()[0].name, [1, 1, 1, 1, 1, 1, 1, 0]); }
  lemma Row1() ensures Rising(E1(), E2()[0].name) { RowRises(E1(), E2()[0].name, [0, 1, 0, 1, 1, 0, 1, 1]); }
  lemma Row2() ensures Rising(E2(), E3()[0].name) { RowRises(E2(), E3()[0].name, [1, 1, 1, 1, 0, 0, 1, 1]); }
  lemma Row3() ensures Rising(E3(), E4()[0].name) { RowRises(E3(), E4()[0].name, [1, 1, 0, 0, 0, 0, 1, 0]); }
  lemma Row4() ensures Rising(E4(), E5()[0].name) { RowRises(E4(), E5()[0].name, [1, 1, 1, 1, 2, 1, 1, 1]); }
  lemma Row5() ensures Rising(E5(), E6()[0].name) { RowRises(E5(), E6()[0].name, [0, 1, 1, 1, 0, 0, 1, 0]); }
  lemma Row6() ensures Rising(E6(), E7()[0].name) { RowRises(E6(), E7()[0].name, [1, 1, 0, 1, 1, 1, 1, 0]); }
  lemma Row7() ensures Rising(E7(), E8()[0].name) { RowRises(E7(), E8()[0].name, [0, 1, 0, 0, 1, 2, 1, 1]); }
  lemma Row8() ensures Rising(E8(), E9()[0].name) { RowRises(E8(), E9()[0].name, [1, 2, 1, 1, 2, 1, 1, 1]); }
  lemma Row9() ensures Rising(E9(), E10()[0].name) { RowRises(E9(), E10()[0].name, [1, 0, 1, 1, 2, 1, 0, 1]); }
  lemma Row10() ensures Rising(E10(), E11()[0].name) { RowRises(E10(), E11()[0].name, [1, 2, 1, 1, 1, 1, 2, 1]); }
  lemma Row11() ensures Rising(E11(), E12()[0].name) { RowRises(E11(), E12()[0].name, [1, 2, 0, 1, 2, 1, 2, 1]); }
  lemma Row12() ensures Rising(E12(), E13()[0].name) { RowRises(E12(), E13()[0].name, [2, 2, 0, 1, 1, 1, 2, 1]); }
  lemma Row13() ensures Rising(E13(), E14()[0].name) { RowRises(E13(), E14()[0].name, [1, 1, 1, 2, 1, 2, 1, 0]); }
  lemma Row14() ensures Rising(E14(), E15()[0].name) { RowRises(E14(), E15()[0].name, [1, 1, 5, 4, 3, 0, 1, 1]); }
  lemma Row15() ensures Rising(E15(), E16()[0].name) { RowRises(E15(), E16()[0].name, [0, 1, 1, 2, 1, 0, 1, 1]); }
  lemma Row16() ensures Rising(E16(), E17()[0].name) { RowRises(E16(), E17()[0].name, [1, 1, 1, 2, 1, 1, 1, 1]); }
  lemma Row17() ensures Rising(E17(), E18()[0].name) { RowRises(E17(), E18()[0].name, [0, 0, 1, 2, 2, 2, 1, 1]); }
  lemma Row18() ensures Rising(E18(), E19()[0].name) { RowRises(E18(), E19()[0].name, [1, 1, 1, 2, 1, 1, 2, 1]); }
  lemma Row19() ensures Rising(E19(), E20()[0].name) { RowRises(E19(), E20()[0].name, [0, 1, 1, 2, 2, 1, 0, 1]); }
  lemma Row20() ensures Rising(E20(), E21()[0].name) { RowRises(E20(), E21()[0].name, [1, 1, 1, 1, 3, 1, 1, 1]); }
  lemma Row21() ensures Rising(E21(), E22()[0].name) { RowRises(E21(), E22()[0].name, [0, 1, 1, 1, 1, 1, 2, 1]); }
  lemma Row22() ensures Rising(E22(), E23()[0].name) { RowRises(E22(), E23()[0].name, [1, 2, 3, 1, 1, 3, 1, 0]); }
  lemma Row23() ensures Rising(E23(), E24()[0].name) { RowRises(E23(), E24()[0].name, [3, 1, 3, 1, 1, 2, 1, 1]); }
  lemma Row24() ensures Rising(E24(), E25()[0].name) { RowRises(E24(), E25()[0].name, [1, 2, 3, 1, 0, 0, 1, 2]); }
  lemma Row25() ensures Rising(E25(), E26()[0].name) { RowRises(E25(), E26()[0].name, [2, 2, 1, 1, 1, 2, 1, 1]); }
  lemma Row26() ensures Rising(E26(), E27()[0].name) { RowRises(E26(), E27()[0].name, [1, 1, 2, 0, 1, 1, 1, 1]); }
  lemma Row27() ensures Rising(E27(), E28()[0].name) { RowRises(E27(), E28()[0].name, [1, 5, 2, 1, 1, 3, 2, 2]); }
  lemma Row28() ensures Rising(E28(), E29()[0].name) { RowRises(E28(), E29()[0].name, [3, 3, 3, 3, 1, 0, 1, 3]); }
  lemma Row29() ensures Rising(E29(), E30()[0].name) { RowRises(E29(), E30()[0].name, [5, 2, 2, 1, 2, 1, 0, 1]); }
  lemma Row30() ensures Rising(E30(), E31()[0].name) { RowRises(E30(), E31()[0].name, [2, 1, 1, 1, 1, 4, 1, 0]); }
  lemma Row31() ensures Rising(E31(), "~") { RowRises(E31(), "~", [0, 0, 1, 1, 0, 1, 2, 0]); }

  /** The name behind a row; behind the last one, a name that is behind all. */
  function NextName(rows: seq<seq<Entity>>, k: nat): string
    requires k < |rows|
  {
    if k + 1 < |rows| && rows[k + 1] != [] then rows[k + 1][0].name else "~"
  }

  /** The rows from the `k`-th on are in ascending order, each in front of the next one. */
  predicate RiseFrom(rows: seq<seq<Entity>>, k: nat)
    requires k <= |rows|
    decreases |rows| - k
  {
    k == |rows| || (Rising(rows[k], NextName(rows, k)) && RiseFrom(rows, k + 1))
  }

  lemma OneRow(rows: seq<seq<Entity>>, k: nat)
    requires k < |rows| && Rising(rows[k], NextName(rows, k)) && RiseFrom(rows, k + 1)
    ensures RiseFrom(rows, k)
  {
  }

  /** The table of the rows from the `k`-th on. */
  function Joined(rows: seq<seq<Entity>>, k: nat): seq<Entity>
    requires k <= |rows|
    decreases |rows| - k
  {
    if k == |rows| then [] else rows[k] + Joined(rows, k + 1)
  }

  lemma {:induction false} JoinedSorted(rows: seq<seq<Entity>>, k: nat)
    requires k <= |rows| && RiseFrom(rows, k)
    ensures Sorted(Joined(rows, k))
    ensures k < |rows| ==> |rows[k]| == 8 && Joined(rows, k)[0] == rows[k][0]
    decreases |rows| - k
  {
    hide Compare;
    if k < |rows| {
      JoinedSorted(rows, k + 1);
    }
  }

  lemma {:induction false} Has(rows: seq<seq<Entity>>, j: nat, k: nat, e: Entity)
    requires j <= k < |rows| && e in rows[k]
    ensures e in Joined(rows, j)
    decreases k - j
  {
    if j < k {
      Has(rows, j + 1, k, e);
    }
  }

  lemma RiseFrom24()
    ensures |Rows()| == 32 && RiseFrom(Rows(), 24)  && Rows()[24] != []
  {
    hide Rising, RiseFrom, E0, E1, E2, E3, E4, E5, E6, E7, E8, E9, E10, E11, E12, E13, E14, E15, E16, E17,
      E18, E19, E20, E21, E22, E23, E24, E25, E26, E27, E28, E29, E30, E31;
    var rows := Rows();
    Beginning(rows);
    Row31();
    OneRow(rows, 31);
    Row30();
    OneRow(rows, 30);
    Row29();
    OneRow(rows, 29);
    Row28();
    OneRow(rows, 28);
    Row27();
    OneRow(rows, 27);
    Row26();
    OneRow(rows, 26);
    Row25();
    OneRow(rows, 25);
    Row24();
    OneRow(rows, 24);
  }

  lemma RiseFrom16()
    ensures |Rows()| == 32 && RiseFrom(Rows(), 16)  && Rows()[16] != []
  {
    hide Rising, RiseFrom, E0, E1, E2, E3, E4, E5, E6, E7, E8, E9, E10, E11, E12, E13, E14, E15, E16, E17,
      E18, E19, E20, E21, E22, E23, E24, E25, E26, E27, E28, E29, E30, E31;
    var rows := Rows();
    RiseFrom24();
    Row23();
    OneRow(rows, 23);
    Row22();
    OneRow(rows, 22);
    Row21();
    OneRow(rows, 21);
    Row20();
    OneRow(rows, 20);
    Row19();
    OneRow(rows, 19);
    Row18();
    OneRow(rows, 18);
    Row17();
    OneRow(rows, 17);
    Row16();
    OneRow(rows, 16);
  }

  lemma RiseFrom8()
    ensures |Rows()| == 32 && RiseFrom(Rows(), 8)  && Rows()[8] != []
  {
    hide Rising, RiseFrom, E0, E1, E2, E3, E4, E5, E6, E7, E8, E9, E10, E11, E12, E13, E14, E15, E16, E17,
      E18, E19, E20, E21, E22, E23, E24, E25, E26, E27, E28, E29, E30, E31;
    var rows := Rows();
    RiseFrom16();
    Row15();
    OneRow(rows, 15);
    Row14();
    OneRow(rows, 14);
    Row13();
    OneRow(rows, 13);
    Row12();
    OneRow(rows, 12);
    Row11();
    OneRow(rows, 11);
    Row10();
    OneRow(rows, 10);
    Row9();
    OneRow(rows, 9);
    Row8();
    OneRow(rows, 8);
  }

  lemma RiseFrom0()
    ensures |Rows()| == 32 && RiseFrom(Rows(), 0) 
  {
    hide Rising, RiseFrom, E0, E1, E2, E3, E4, E5, E6, E7, E8, E9, E10, E11, E12, E13, E14, E15, E16, E17,
      E18, E19, E20, E21, E22, E23, E24, E25, E26, E27, E28, E29, E30, E31;
    var rows := Rows();
    RiseFrom8();
    Row7();
    OneRow(rows, 7);
    Row6();
    OneRow(rows, 6);
    Row5();
    OneRow(rows, 5);
    Row4();
    OneRow(rows, 4);
    Row3();
    OneRow(rows, 3);
    Row2();
    OneRow(rows, 2);
    Row1();
    OneRow(rows, 1);
    Row0();
    OneRow(rows, 0);
  }

  lemma Beginning(rows: seq<seq<Entity>>)
    ensures RiseFrom(rows, |rows|)
  {
  }

  /** The table that the library comes with. */
  function Entities(): seq<Entity> {
    Joined(Rows(), 0)
  }

  /** It is sorted, with every name in it once. */
  lemma EntitiesSorted()
    ensures Sorted(Entities())
  {
    hide Rows, Compare, Joined, RiseFrom;
    RiseFrom0();
    JoinedSorted(Rows(), 0);
  }

  /** The four entities that the writer uses are in it. */
  lemma Escapes()
    ensures Entity("amp", '&' as int) in Entities() && Entity("lt", '<' as int) in Entities()
    ensures Entity("gt", '>' as int) in Entities() && Entity("quot", '\"' as int) in Entities()
  {
    hide Joined;
    var rows := Rows();
    assert rows[8] == E8() && E8()[3] in E8();
    Has(rows, 0, 8, E8()[3]);
    assert rows[19] == E19() && E19()[0] in E19();
    Has(rows, 0, 19, E19()[0]);
    assert rows[15] == E15() && E15()[0] in E15();
    Has(rows, 0, 15, E15()[0]);
    assert rows[24] == E24() && E24()[5] in E24();
    Has(rows, 0, 24, E24()[5]);
  }

  /** The same with the table that the library comes with. */
  lemma SavedIsLoaded(top: Node)
    requires Document(top)
    ensures MxmlLoad.LoadString(SaveText(top), name => Scan(Entities(), name)) == Some(WithoutTail(top))
    ensures MxmlLoad.LoadString(SaveText(top), name => Scan(Entities(), name)) == Some(top)
      <==> EndsInElement(top.children)
  {
    hide MxmlLoad.LoadString, SaveText, Sorted, Entities, Scan;
    EntitiesSorted();
    Escapes();
    TableSuffices(Entities(), top);
  }
}
