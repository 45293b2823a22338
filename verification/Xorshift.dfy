/**
 The xor-shift generator behind the round constants: its step on 128-bit words is a bijection
 with an explicit inverse, and only the zero state leads to zero.
 */
module Xorshift {

  // ---------- xoring a word with its own shift ----------

  function Left13(s: bv128): bv128 { s ^ (s << 13) }

  function Left26(s: bv128): bv128 { s ^ (s << 26) }

  function Left52(s: bv128): bv128 { s ^ (s << 52) }

  function Left104(s: bv128): bv128 { s ^ (s << 104) }

  function Right7(s: bv128): bv128 { s ^ (s >> 7) }

  function Right14(s: bv128): bv128 { s ^ (s >> 14) }

  function Right28(s: bv128): bv128 { s ^ (s >> 28) }

  function Right56(s: bv128): bv128 { s ^ (s >> 56) }

  function Right112(s: bv128): bv128 { s ^ (s >> 112) }

  function Left17(s: bv128): bv128 { s ^ (s << 17) }

  function Left34(s: bv128): bv128 { s ^ (s << 34) }

  function Left68(s: bv128): bv128 { s ^ (s << 68) }

  /** One step of the generator. */
  function NextState(s: bv128): bv128 {
    Left17(Right7(Left13(s)))
  }

  /** state ^= state << 13; state ^= state >> 7; state ^= state << 17. */
  lemma NextStateFormula(s: bv128)
    ensures NextState(s) == (var a := s ^ (s << 13); var b := a ^ (a >> 7); b ^ (b << 17))
  {
    calc {
      NextState(s);
      Left17(Right7(Left13(s)));
      Left17(Right7(s ^ (s << 13)));
      Left17((s ^ (s << 13)) ^ ((s ^ (s << 13)) >> 7));
      (var a := s ^ (s << 13); var b := a ^ (a >> 7); b ^ (b << 17));
    }
  }

  // A step is undone by the shifts by n, 2n, 4n, ... below the word size: xoring twice with the
  // shift by n is xoring once with the shift by 2n, until nothing is left of the word.

  function Unleft13(s: bv128): bv128 { Left104(Left52(Left26(Left13(s)))) }

  function Unright7(s: bv128): bv128 { Right112(Right56(Right28(Right14(Right7(s))))) }

  function Unleft17(s: bv128): bv128 { Left68(Left34(Left17(s))) }

  function PreviousState(s: bv128): bv128 {
    Unleft13(Unright7(Unleft17(s)))
  }

  // Each of the following steps rewrites one concrete shift expression.

  lemma Left13Twice(s: bv128)
    ensures Left13(Left13(s)) == Left26(s)
  {
    calc {
      Left13(Left13(s));
      Left13(s ^ (s << 13));
      (s ^ (s << 13)) ^ ((s ^ (s << 13)) << 13);
      s ^ (s << 26);
      Left26(s);
    }
  }

  lemma Left26Twice(s: bv128)
    ensures Left26(Left26(s)) == Left52(s)
  {
    calc {
      Left26(Left26(s));
      Left26(s ^ (s << 26));
      (s ^ (s << 26)) ^ ((s ^ (s << 26)) << 26);
      s ^ (s << 52);
      Left52(s);
    }
  }

  lemma Left52Twice(s: bv128)
    ensures Left52(Left52(s)) == Left104(s)
  {
    calc {
      Left52(Left52(s));
      Left52(s ^ (s << 52));
      (s ^ (s << 52)) ^ ((s ^ (s << 52)) << 52);
      s ^ (s << 104);
      Left104(s);
    }
  }

  lemma Left104Vanishes(s: bv128)
    ensures (s ^ (s << 104)) ^ ((s ^ (s << 104)) << 104) == s
  {
  }

  lemma Left104Twice(s: bv128)
    ensures Left104(Left104(s)) == s
  {
    calc {
      Left104(Left104(s));
      Left104(s ^ (s << 104));
      (s ^ (s << 104)) ^ ((s ^ (s << 104)) << 104);
      { Left104Vanishes(s); }
      s;
    }
  }

  lemma Left13And26(s: bv128)
    ensures Left13(Left26(s)) == Left26(Left13(s))
  {
    calc {
      Left13(Left26(s));
      Left13(s ^ (s << 26));
      (s ^ (s << 26)) ^ ((s ^ (s << 26)) << 13);
      (s ^ (s << 13)) ^ ((s ^ (s << 13)) << 26);
      Left26(s ^ (s << 13));
      Left26(Left13(s));
    }
  }

  lemma Left13And52(s: bv128)
    ensures Left13(Left52(s)) == Left52(Left13(s))
  {
    calc {
      Left13(Left52(s));
      Left13(s ^ (s << 52));
      (s ^ (s << 52)) ^ ((s ^ (s << 52)) << 13);
      (s ^ (s << 13)) ^ ((s ^ (s << 13)) << 52);
      Left52(s ^ (s << 13));
      Left52(Left13(s));
    }
  }

  lemma Left13And104(s: bv128)
    ensures Left13(Left104(s)) == Left104(Left13(s))
  {
    calc {
      Left13(Left104(s));
      Left13(s ^ (s << 104));
      (s ^ (s << 104)) ^ ((s ^ (s << 104)) << 13);
      (s ^ (s << 13)) ^ ((s ^ (s << 13)) << 104);
      Left104(s ^ (s << 13));
      Left104(Left13(s));
    }
  }

  lemma Right7Twice(s: bv128)
    ensures Right7(Right7(s)) == Right14(s)
  {
    calc {
      Right7(Right7(s));
      Right7(s ^ (s >> 7));
      (s ^ (s >> 7)) ^ ((s ^ (s >> 7)) >> 7);
      s ^ (s >> 14);
      Right14(s);
    }
  }

  lemma Right14Twice(s: bv128)
    ensures Right14(Right14(s)) == Right28(s)
  {
    calc {
      Right14(Right14(s));
      Right14(s ^ (s >> 14));
      (s ^ (s >> 14)) ^ ((s ^ (s >> 14)) >> 14);
      s ^ (s >> 28);
      Right28(s);
    }
  }

  lemma Right28Twice(s: bv128)
    ensures Right28(Right28(s)) == Right56(s)
  {
    calc {
      Right28(Right28(s));
      Right28(s ^ (s >> 28));
      (s ^ (s >> 28)) ^ ((s ^ (s >> 28)) >> 28);
      s ^ (s >> 56);
      Right56(s);
    }
  }

  lemma Right56Twice(s: bv128)
    ensures Right56(Right56(s)) == Right112(s)
  {
    calc {
      Right56(Right56(s));
      Right56(s ^ (s >> 56));
      (s ^ (s >> 56)) ^ ((s ^ (s >> 56)) >> 56);
      s ^ (s >> 112);
      Right112(s);
    }
  }

  lemma Right112Vanishes(s: bv128)
    ensures (s ^ (s >> 112)) ^ ((s ^ (s >> 112)) >> 112) == s
  {
  }

  lemma Right112Twice(s: bv128)
    ensures Right112(Right112(s)) == s
  {
    calc {
      Right112(Right112(s));
      Right112(s ^ (s >> 112));
      (s ^ (s >> 112)) ^ ((s ^ (s >> 112)) >> 112);
      { Right112Vanishes(s); }
      s;
    }
  }

  lemma Right7And14(s: bv128)
    ensures Right7(Right14(s)) == Right14(Right7(s))
  {
    calc {
      Right7(Right14(s));
      Right7(s ^ (s >> 14));
      (s ^ (s >> 14)) ^ ((s ^ (s >> 14)) >> 7);
      (s ^ (s >> 7)) ^ ((s ^ (s >> 7)) >> 14);
      Right14(s ^ (s >> 7));
      Right14(Right7(s));
    }
  }

  lemma Right7And28(s: bv128)
    ensures Right7(Right28(s)) == Right28(Right7(s))
  {
    calc {
      Right7(Right28(s));
      Right7(s ^ (s >> 28));
      (s ^ (s >> 28)) ^ ((s ^ (s >> 28)) >> 7);
      (s ^ (s >> 7)) ^ ((s ^ (s >> 7)) >> 28);
      Right28(s ^ (s >> 7));
      Right28(Right7(s));
    }
  }

  lemma Right7And56(s: bv128)
    ensures Right7(Right56(s)) == Right56(Right7(s))
  {
    calc {
      Right7(Right56(s));
      Right7(s ^ (s >> 56));
      (s ^ (s >> 56)) ^ ((s ^ (s >> 56)) >> 7);
      (s ^ (s >> 7)) ^ ((s ^ (s >> 7)) >> 56);
      Right56(s ^ (s >> 7));
      Right56(Right7(s));
    }
  }

  lemma Right7And112(s: bv128)
    ensures Right7(Right112(s)) == Right112(Right7(s))
  {
    calc {
      Right7(Right112(s));
      Right7(s ^ (s >> 112));
      (s ^ (s >> 112)) ^ ((s ^ (s >> 112)) >> 7);
      (s ^ (s >> 7)) ^ ((s ^ (s >> 7)) >> 112);
      Right112(s ^ (s >> 7));
      Right112(Right7(s));
    }
  }

  lemma Left17Twice(s: bv128)
    ensures Left17(Left17(s)) == Left34(s)
  {
    calc {
      Left17(Left17(s));
      Left17(s ^ (s << 17));
      (s ^ (s << 17)) ^ ((s ^ (s << 17)) << 17);
      s ^ (s << 34);
      Left34(s);
    }
  }

  lemma Left34Twice(s: bv128)
    ensures Left34(Left34(s)) == Left68(s)
  {
    calc {
      Left34(Left34(s));
      Left34(s ^ (s << 34));
      (s ^ (s << 34)) ^ ((s ^ (s << 34)) << 34);
      s ^ (s << 68);
      Left68(s);
    }
  }

  lemma Left68Vanishes(s: bv128)
    ensures (s ^ (s << 68)) ^ ((s ^ (s << 68)) << 68) == s
  {
  }

  lemma Left68Twice(s: bv128)
    ensures Left68(Left68(s)) == s
  {
    calc {
      Left68(Left68(s));
      Left68(s ^ (s << 68));
      (s ^ (s << 68)) ^ ((s ^ (s << 68)) << 68);
      { Left68Vanishes(s); }
      s;
    }
  }

  lemma Left17And34(s: bv128)
    ensures Left17(Left34(s)) == Left34(Left17(s))
  {
    calc {
      Left17(Left34(s));
      Left17(s ^ (s << 34));
      (s ^ (s << 34)) ^ ((s ^ (s << 34)) << 17);
      (s ^ (s << 17)) ^ ((s ^ (s << 17)) << 34);
      Left34(s ^ (s << 17));
      Left34(Left17(s));
    }
  }

  lemma Left17And68(s: bv128)
    ensures Left17(Left68(s)) == Left68(Left17(s))
  {
    calc {
      Left17(Left68(s));
      Left17(s ^ (s << 68));
      (s ^ (s << 68)) ^ ((s ^ (s << 68)) << 17);
      (s ^ (s << 17)) ^ ((s ^ (s << 17)) << 68);
      Left68(s ^ (s << 17));
      Left68(Left17(s));
    }
  }

  lemma Unleft13Undoes(s: bv128)
    ensures Unleft13(Left13(s)) == s && Left13(Unleft13(s)) == s
  {
    hide Left13, Left26, Left52, Left104;
    Left13Twice(s);
    Left26Twice(s);
    Left52Twice(s);
    Left104Twice(s);
    Left13And104(Left52(Left26(Left13(s))));
    Left13And52(Left26(Left13(s)));
    Left13And26(Left13(s));
  }

  lemma Unright7Undoes(s: bv128)
    ensures Unright7(Right7(s)) == s && Right7(Unright7(s)) == s
  {
    hide Right7, Right14, Right28, Right56, Right112;
    Right7Twice(s);
    Right14Twice(s);
    Right28Twice(s);
    Right56Twice(s);
    Right112Twice(s);
    Right7And112(Right56(Right28(Right14(Right7(s)))));
    Right7And56(Right28(Right14(Right7(s))));
    Right7And28(Right14(Right7(s)));
    Right7And14(Right7(s));
  }

  lemma Unleft17Undoes(s: bv128)
    ensures Unleft17(Left17(s)) == s && Left17(Unleft17(s)) == s
  {
    hide Left17, Left34, Left68;
    Left17Twice(s);
    Left34Twice(s);
    Left68Twice(s);
    Left17And68(Left34(Left17(s)));
    Left17And34(Left17(s));
  }

  /** One step of the generator is a bijection of the 128-bit words. */
  lemma NextStateIsPermutation(s: bv128)
    ensures PreviousState(NextState(s)) == s
    ensures NextState(PreviousState(s)) == s
  {
    hide Left13, Right7, Left17, Unleft13, Unright7, Unleft17;
    Unleft13Undoes(s);
    Unright7Undoes(Left13(s));
    Unleft17Undoes(Right7(Left13(s)));
    Unleft17Undoes(s);
    Unright7Undoes(Unleft17(s));
    Unleft13Undoes(Unright7(Unleft17(s)));
  }

  lemma NextStateOfZero()
    ensures NextState(0) == 0
  {
  }

  /** Only zero steps to zero. */
  lemma NextStateOfNonzero(s: bv128)
    requires s != 0
    ensures NextState(s) != 0
  {
    hide NextState, PreviousState;
    NextStateIsPermutation(s);
    NextStateIsPermutation(0);
    NextStateOfZero();
  }

  lemma NextStateIsInjective(s: bv128, t: bv128)
    ensures NextState(s) == NextState(t) <==> s == t
  {
    hide NextState, PreviousState;
    NextStateIsPermutation(s);
    NextStateIsPermutation(t);
  }

  // ---------- the states from a seed ----------

  /** The state after n steps. */
  function StateAfter(seed: bv128, n: nat): bv128 {
    if n == 0 then seed else NextState(StateAfter(seed, n - 1))
  }

  lemma {:induction false} StateNeverZero(seed: bv128, n: nat)
    requires seed != 0
    ensures StateAfter(seed, n) != 0
  {
    hide NextState;
    if n > 0 {
      StateNeverZero(seed, n - 1);
      NextStateOfNonzero(StateAfter(seed, n - 1));
    }
  }

  lemma {:induction false} RewindStates(seed: bv128, i: nat, j: nat)
    requires i <= j
    ensures StateAfter(seed, i) == StateAfter(seed, j) <==> StateAfter(seed, j - i) == seed
  {
    hide NextState;
    if i > 0 {
      NextStateIsInjective(StateAfter(seed, i - 1), StateAfter(seed, j - 1));
      RewindStates(seed, i - 1, j - 1);
    }
  }
}
