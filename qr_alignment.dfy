/**
 * The alignment pattern position table `e[2]` of main/static/js/qr-code.js
 * (Table E.1 of ISO/IEC 18004), as far as the function-pattern writer
 * relies on it: where the positions start and end, and how far apart they
 * lie.
 */
module QrAlignment {
  import opened QrCapacity

  /**
   * Alignment pattern positions al of a symbol of side n: none exactly when
   * n is 21 (version 1); otherwise from 4 to `n - 9`, all even, the inner
   * ones at least 16 from either end, and any two at least 12 modules
   * apart, so that patterns never meet each other or the finder patterns.
   */
  predicate Shaped(al: seq<nat>, n: int) {
    (|al| == 0 <==> n == 21)
    && (|al| == 0 || (|al| >= 2 && al[0] == 4 && al[|al| - 1] == n - 9))
    && (forall k :: 0 <= k < |al| ==> 4 <= al[k] <= n - 9 && al[k] % 2 == 0)
    && (forall k :: 0 < k < |al| ==> 16 <= al[k])
    && (forall k :: 0 <= k < |al| - 1 ==> al[k] <= n - 21)
    && (forall j, k :: 0 <= j < k < |al| ==> al[j] + 12 <= al[k])
  }

  /** `e[2]`: the alignment pattern positions of version v. */
  function Positions(v: int): (al: seq<nat>)
    requires 1 <= v <= 40
    ensures Shaped(al, 4 * v + 17)
  {
    AlignmentShape(v);
    Row(v).alignment
  }

  /** The alignment positions of every version are shaped. */
  lemma AlignmentShape(v: int)
    requires 1 <= v <= 40
    ensures Shaped(Row(v).alignment, 4 * v + 17)
  {
    if v <= 10 {
      ShapeUpTo10(v);
    } else if v <= 20 {
      ShapeUpTo20(v);
    } else if v <= 30 {
      ShapeUpTo30(v);
    } else {
      ShapeUpTo40(v);
    }
  }

  lemma ShapeUpTo10(v: int)
    requires 1 <= v <= 10
    ensures Shaped(Row(v).alignment, 4 * v + 17)
  {
    if v == 1 {
      Shape1();
    } else if v == 2 {
      Shape2();
    } else if v == 3 {
      Shape3();
    } else if v == 4 {
      Shape4();
    } else if v == 5 {
      Shape5();
    } else if v == 6 {
      Shape6();
    } else if v == 7 {
      Shape7();
    } else if v == 8 {
      Shape8();
    } else if v == 9 {
      Shape9();
    } else if v == 10 {
      Shape10();
    }
  }

  lemma ShapeUpTo20(v: int)
    requires 11 <= v <= 20
    ensures Shaped(Row(v).alignment, 4 * v + 17)
  {
    if v == 11 {
      Shape11();
    } else if v == 12 {
      Shape12();
    } else if v == 13 {
      Shape13();
    } else if v == 14 {
      Shape14();
    } else if v == 15 {
      Shape15();
    } else if v == 16 {
      Shape16();
    } else if v == 17 {
      Shape17();
    } else if v == 18 {
      Shape18();
    } else if v == 19 {
      Shape19();
    } else if v == 20 {
      Shape20();
    }
  }

  lemma ShapeUpTo30(v: int)
    requires 21 <= v <= 30
    ensures Shaped(Row(v).alignment, 4 * v + 17)
  {
    if v == 21 {
      Shape21();
    } else if v == 22 {
      Shape22();
    } else if v == 23 {
      Shape23();
    } else if v == 24 {
      Shape24();
    } else if v == 25 {
      Shape25();
    } else if v == 26 {
      Shape26();
    } else if v == 27 {
      Shape27();
    } else if v == 28 {
      Shape28();
    } else if v == 29 {
      Shape29();
    } else if v == 30 {
      Shape30();
    }
  }

  lemma ShapeUpTo40(v: int)
    requires 31 <= v <= 40
    ensures Shaped(Row(v).alignment, 4 * v + 17)
  {
    if v == 31 {
      Shape31();
    } else if v == 32 {
      Shape32();
    } else if v == 33 {
      Shape33();
    } else if v == 34 {
      Shape34();
    } else if v == 35 {
      Shape35();
    } else if v == 36 {
      Shape36();
    } else if v == 37 {
      Shape37();
    } else if v == 38 {
      Shape38();
    } else if v == 39 {
      Shape39();
    } else if v == 40 {
      Shape40();
    }
  }

  // The rows of the position table, one version at a time.
  lemma Shape1() ensures Shaped(Row(1).alignment, 21) { assert Row(1).alignment == []; }
  lemma Shape2() ensures Shaped(Row(2).alignment, 25) { assert Row(2).alignment == [4, 16]; }
  lemma Shape3() ensures Shaped(Row(3).alignment, 29) { assert Row(3).alignment == [4, 20]; }
  lemma Shape4() ensures Shaped(Row(4).alignment, 33) { assert Row(4).alignment == [4, 24]; }
  lemma Shape5() ensures Shaped(Row(5).alignment, 37) { assert Row(5).alignment == [4, 28]; }
  lemma Shape6() ensures Shaped(Row(6).alignment, 41) { assert Row(6).alignment == [4, 32]; }
  lemma Shape7() ensures Shaped(Row(7).alignment, 45) { assert Row(7).alignment == [4, 20, 36]; }
  lemma Shape8() ensures Shaped(Row(8).alignment, 49) { assert Row(8).alignment == [4, 22, 40]; }
  lemma Shape9() ensures Shaped(Row(9).alignment, 53) { assert Row(9).alignment == [4, 24, 44]; }
  lemma Shape10() ensures Shaped(Row(10).alignment, 57) { assert Row(10).alignment == [4, 26, 48]; }
  lemma Shape11() ensures Shaped(Row(11).alignment, 61) { assert Row(11).alignment == [4, 28, 52]; }
  lemma Shape12() ensures Shaped(Row(12).alignment, 65) { assert Row(12).alignment == [4, 30, 56]; }
  lemma Shape13() ensures Shaped(Row(13).alignment, 69) { assert Row(13).alignment == [4, 32, 60]; }
  lemma Shape14() ensures Shaped(Row(14).alignment, 73) { assert Row(14).alignment == [4, 24, 44, 64]; }
  lemma Shape15() ensures Shaped(Row(15).alignment, 77) { assert Row(15).alignment == [4, 24, 46, 68]; }
  lemma Shape16() ensures Shaped(Row(16).alignment, 81) { assert Row(16).alignment == [4, 24, 48, 72]; }
  lemma Shape17() ensures Shaped(Row(17).alignment, 85) { assert Row(17).alignment == [4, 28, 52, 76]; }
  lemma Shape18() ensures Shaped(Row(18).alignment, 89) { assert Row(18).alignment == [4, 28, 54, 80]; }
  lemma Shape19() ensures Shaped(Row(19).alignment, 93) { assert Row(19).alignment == [4, 28, 56, 84]; }
  lemma Shape20() ensures Shaped(Row(20).alignment, 97) { assert Row(20).alignment == [4, 32, 60, 88]; }
  lemma Shape21() ensures Shaped(Row(21).alignment, 101) { assert Row(21).alignment == [4, 26, 48, 70, 92]; }
  lemma Shape22() ensures Shaped(Row(22).alignment, 105) { assert Row(22).alignment == [4, 24, 48, 72, 96]; }
  lemma Shape23() ensures Shaped(Row(23).alignment, 109) { assert Row(23).alignment == [4, 28, 52, 76, 100]; }
  lemma Shape24() ensures Shaped(Row(24).alignment, 113) { assert Row(24).alignment == [4, 26, 52, 78, 104]; }
  lemma Shape25() ensures Shaped(Row(25).alignment, 117) { assert Row(25).alignment == [4, 30, 56, 82, 108]; }
  lemma Shape26() ensures Shaped(Row(26).alignment, 121) { assert Row(26).alignment == [4, 28, 56, 84, 112]; }
  lemma Shape27() ensures Shaped(Row(27).alignment, 125) { assert Row(27).alignment == [4, 32, 60, 88, 116]; }
  lemma Shape28() ensures Shaped(Row(28).alignment, 129) { assert Row(28).alignment == [4, 24, 48, 72, 96, 120]; }
  lemma Shape29() ensures Shaped(Row(29).alignment, 133) { assert Row(29).alignment == [4, 28, 52, 76, 100, 124]; }
  lemma Shape30() ensures Shaped(Row(30).alignment, 137) { assert Row(30).alignment == [4, 24, 50, 76, 102, 128]; }
  lemma Shape31() ensures Shaped(Row(31).alignment, 141) { assert Row(31).alignment == [4, 28, 54, 80, 106, 132]; }
  lemma Shape32() ensures Shaped(Row(32).alignment, 145) { assert Row(32).alignment == [4, 32, 58, 84, 110, 136]; }
  lemma Shape33() ensures Shaped(Row(33).alignment, 149) { assert Row(33).alignment == [4, 28, 56, 84, 112, 140]; }
  lemma Shape34() ensures Shaped(Row(34).alignment, 153) { assert Row(34).alignment == [4, 32, 60, 88, 116, 144]; }
  lemma Shape35() ensures Shaped(Row(35).alignment, 157) { assert Row(35).alignment == [4, 28, 52, 76, 100, 124, 148]; }
  lemma Shape36() ensures Shaped(Row(36).alignment, 161) { assert Row(36).alignment == [4, 22, 48, 74, 100, 126, 152]; }
  lemma Shape37() ensures Shaped(Row(37).alignment, 165) { assert Row(37).alignment == [4, 26, 52, 78, 104, 130, 156]; }
  lemma Shape38() ensures Shaped(Row(38).alignment, 169) { assert Row(38).alignment == [4, 30, 56, 82, 108, 134, 160]; }
  lemma Shape39() ensures Shaped(Row(39).alignment, 173) { assert Row(39).alignment == [4, 24, 52, 80, 108, 136, 164]; }
  lemma Shape40() ensures Shaped(Row(40).alignment, 177) { assert Row(40).alignment == [4, 28, 56, 84, 112, 140, 168]; }
}
