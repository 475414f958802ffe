/** A discriminator that stored markers already carry, digit by digit. */
module PinnedCause {
  import opened Text
  import opened Fnv
  import Bits

  lemma {:induction false} AsciiIsItself(s: string)
    requires forall i :: 0 <= i < |s| ==> s[i] as int < 0x80
    ensures |Utf8(s)| == |s| && forall i :: 0 <= i < |s| ==> Utf8(s)[i] == s[i] as int
  {
    if s != "" {
      AsciiIsItself(s[1..]);
    }
  }

  /** A hash followed state by state. */
  lemma {:induction false} FoldFollows(m: Multiplier, states: seq<U64>, bytes: seq<Byte>)
    requires |states| == |bytes| + 1
    requires forall i :: 0 <= i < |bytes| ==> Step(m, states[i], bytes[i]) == states[i + 1]
    ensures Fold(m, states[0], bytes) == states[|bytes|]
    decreases bytes
  {
    hide Step;
    if bytes != [] {
      FoldFollows(m, states[1..], bytes[1..]);
    }
  }

  lemma FirstBytes()
    ensures Utf8("no work-it") == [0x6e, 0x6f, 0x20, 0x77, 0x6f, 0x72, 0x6b, 0x2d, 0x69, 0x74]
  {
    hide Utf8;
    AsciiIsItself("no work-it");
  }

  lemma FirstStates()
    ensures Fold(Wide, 0xcbf2_9ce4_8422_2325, Utf8("no work-it")) == 0x5077_7cd7_56e5_d087
  {
    hide Step, Fold, Utf8;
    StepIs(Wide, 0xcbf2_9ce4_8422_2325, 0x6e, 0x4b, 0xaf75_484c_8601_f871, 0x0cbf_29ce_499c);
    StepIs(Wide, 0xaf75_484c_8601_f871, 0x6f, 0x1e, 0x43cb_ba07_b558_9afa, 0x0af7_5484_c98a);
    StepIs(Wide, 0x43cb_ba07_b558_9afa, 0x20, 0xda, 0xbcda_bb19_258f_206e, 0x043c_bba0_7bc8);
    StepIs(Wide, 0xbcda_bb19_258f_206e, 0x77, 0x19, 0xd9ad_7bba_d233_8a7b, 0x0bcd_abb1_9399);
    StepIs(Wide, 0xd9ad_7bba_d233_8a7b, 0x6f, 0x14, 0x1a6a_7e73_2d93_9ffc, 0x0d9a_d7bb_ae95);
    StepIs(Wide, 0x1a6a_7e73_2d93_9ffc, 0x72, 0x8e, 0x1ced_bdb6_71d8_1e4a, 0x01a6_a7e7_3306);
    StepIs(Wide, 0x1ced_bdb6_71d8_1e4a, 0x6b, 0x21, 0xa9db_6d03_723b_3213, 0x01ce_dbdb_674e);
    StepIs(Wide, 0xa9db_6d03_723b_3213, 0x2d, 0x3e, 0x52fe_1cdb_1a96_5f5a, 0x0a9d_b6d0_3844);
    StepIs(Wide, 0x52fe_1cdb_1a96_5f5a, 0x69, 0x33, 0x6bbe_384e_2d83_c3a9, 0x052f_e1cd_b236);
    StepIs(Wide, 0x6bbe_384e_2d83_c3a9, 0x74, 0xdd, 0x5077_7cd7_56e5_d087, 0x06bb_e384_e38f);
    FirstBytes();
    var states := [0xcbf2_9ce4_8422_2325,
                   0xaf75_484c_8601_f871,
                   0x43cb_ba07_b558_9afa,
                   0xbcda_bb19_258f_206e,
                   0xd9ad_7bba_d233_8a7b,
                   0x1a6a_7e73_2d93_9ffc,
                   0x1ced_bdb6_71d8_1e4a,
                   0xa9db_6d03_723b_3213,
                   0x52fe_1cdb_1a96_5f5a,
                   0x6bbe_384e_2d83_c3a9,
                   0x5077_7cd7_56e5_d087];
    FoldFollows(Wide, states, [0x6e, 0x6f, 0x20, 0x77, 0x6f, 0x72, 0x6b, 0x2d, 0x69, 0x74]);
  }

  lemma MiddleBytes()
    ensures Utf8("em in jour") == [0x65, 0x6d, 0x20, 0x69, 0x6e, 0x20, 0x6a, 0x6f, 0x75, 0x72]
  {
    hide Utf8;
    AsciiIsItself("em in jour");
  }

  lemma MiddleStates()
    ensures Fold(Wide, 0x5077_7cd7_56e5_d087, Utf8("em in jour")) == 0x925a_e3eb_34a3_8220
  {
    hide Step, Fold, Utf8;
    StepIs(Wide, 0x5077_7cd7_56e5_d087, 0x65, 0xe2, 0x1817_41e8_a881_f006, 0x0507_77cd_75f7);
    StepIs(Wide, 0x1817_41e8_a881_f006, 0x6d, 0x6b, 0x0e8b_ae56_54cb_85d1, 0x0181_741e_8ab1);
    StepIs(Wide, 0x0e8b_ae56_54cb_85d1, 0x20, 0xf1, 0x6fb8_4cb2_15d4_9883, 0x00e8_bae5_6565);
    StepIs(Wide, 0x6fb8_4cb2_15d4_9883, 0x69, 0xea, 0x1fb8_f29b_183f_d59e, 0x06fb_84cb_221b);
    StepIs(Wide, 0x1fb8_f29b_183f_d59e, 0x6e, 0xf0, 0xe4a3_3d8a_3478_86d0, 0x01fb_8f29_b1b9);
    StepIs(Wide, 0xe4a3_3d8a_3478_86d0, 0x20, 0xf0, 0x09d0_91d7_28cd_49d0, 0x0e4a_33d8_a4cc);
    StepIs(Wide, 0x09d0_91d7_28cd_49d0, 0x6a, 0xba, 0x8203_709a_54d4_470e, 0x009d_091d_729d);
    StepIs(Wide, 0x8203_709a_54d4_470e, 0x6f, 0x61, 0x304e_663e_24b5_49d3, 0x0820_3709_a62a);
    StepIs(Wide, 0x304e_663e_24b5_49d3, 0x75, 0xa6, 0x69d2_1b98_600c_2512, 0x0304_e663_e29d);
    StepIs(Wide, 0x69d2_1b98_600c_2512, 0x72, 0x60, 0x925a_e3eb_34a3_8220, 0x069d_21b9_86b4);
    MiddleBytes();
    var states := [0x5077_7cd7_56e5_d087,
                   0x1817_41e8_a881_f006,
                   0x0e8b_ae56_54cb_85d1,
                   0x6fb8_4cb2_15d4_9883,
                   0x1fb8_f29b_183f_d59e,
                   0xe4a3_3d8a_3478_86d0,
                   0x09d0_91d7_28cd_49d0,
                   0x8203_709a_54d4_470e,
                   0x304e_663e_24b5_49d3,
                   0x69d2_1b98_600c_2512,
                   0x925a_e3eb_34a3_8220];
    FoldFollows(Wide, states, [0x65, 0x6d, 0x20, 0x69, 0x6e, 0x20, 0x6a, 0x6f, 0x75, 0x72]);
  }

  lemma LastBytes()
    ensures Utf8("nal entry") == [0x6e, 0x61, 0x6c, 0x20, 0x65, 0x6e, 0x74, 0x72, 0x79]
  {
    hide Utf8;
    AsciiIsItself("nal entry");
  }

  lemma LastStates()
    ensures Fold(Wide, 0x925a_e3eb_34a3_8220, Utf8("nal entry")) == 0x7eca_3d22_a8c5_3c53
  {
    hide Step, Fold, Utf8;
    StepIs(Wide, 0x925a_e3eb_34a3_8220, 0x6e, 0x4e, 0xe896_28aa_71d6_6a8a, 0x0925_ae3e_b442);
    StepIs(Wide, 0xe896_28aa_71d6_6a8a, 0x61, 0xeb, 0x9dd5_c99f_6f57_ad51, 0x0e89_628a_a8a8);
    StepIs(Wide, 0x9dd5_c99f_6f57_ad51, 0x6c, 0x3d, 0xad19_69ea_31fb_5ea7, 0x09dd_5c99_f801);
    StepIs(Wide, 0xad19_69ea_31fb_5ea7, 0x20, 0x87, 0xd817_68f2_ee21_9f65, 0x0ad1_969e_a445);
    StepIs(Wide, 0xd817_68f2_ee21_9f65, 0x65, 0x00, 0x49b7_54ca_a321_2d00, 0x0d81_768f_3051);
    StepIs(Wide, 0x49b7_54ca_a321_2d00, 0x6e, 0x6e, 0x555b_f453_3160_31ea, 0x049b_754c_aaaf);
    StepIs(Wide, 0x555b_f453_3160_31ea, 0x74, 0x9e, 0x0e5a_095c_e674_4f7a, 0x0555_bf45_33a7);
    StepIs(Wide, 0x0e5a_095c_e674_4f7a, 0x72, 0x08, 0xa7ee_68db_97a2_4a98, 0x00e5_a095_ce7f);
    StepIs(Wide, 0xa7ee_68db_97a2_4a98, 0x79, 0xe1, 0x7eca_3d22_a8c5_3c53, 0x0a7e_e68d_ba97);
    LastBytes();
    var states := [0x925a_e3eb_34a3_8220,
                   0xe896_28aa_71d6_6a8a,
                   0x9dd5_c99f_6f57_ad51,
                   0xad19_69ea_31fb_5ea7,
                   0xd817_68f2_ee21_9f65,
                   0x49b7_54ca_a321_2d00,
                   0x555b_f453_3160_31ea,
                   0x0e5a_095c_e674_4f7a,
                   0xa7ee_68db_97a2_4a98,
                   0x7eca_3d22_a8c5_3c53];
    FoldFollows(Wide, states, [0x6e, 0x61, 0x6c, 0x20, 0x65, 0x6e, 0x74, 0x72, 0x79]);
  }

  /** One of the discriminators the store is known to hold, as the sixteen digits of a number: it
      moves with the basis, with the multiplier and with the order of the two operations. */
  lemma CauseIsPinned()
    ensures var cause := Cause("no work-item in journal entry");
            |cause| == 16 && AllHex(cause) && ValueInBase(cause, 16) == 0x7eca_3d22_a8c5_3c53
  {
    hide Fold, Utf8, Hex, ValueInBase, Pow16;
    FirstStates();
    MiddleStates();
    LastStates();
    assert "no work-item in journal entry" == "no work-it" + ("em in jour" + "nal entry");
    Utf8Concatenates("no work-it", "em in jour" + "nal entry");
    Utf8Concatenates("em in jour", "nal entry");
    FoldConcatenates(Wide, OFFSET_BASIS, Utf8("no work-it"), Utf8("em in jour") + Utf8("nal entry"));
    FoldConcatenates(Wide, Fold(Wide, OFFSET_BASIS, Utf8("no work-it")), Utf8("em in jour"), Utf8("nal entry"));
    SixteenDigits();
    HexReadsBack(0x7eca_3d22_a8c5_3c53, 16);
  }
}
