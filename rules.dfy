/**
 * Local update rules of elementary cellular automata: the hard-wired rule 30 and the
 * general Wolfram rule, whose number is the truth table of the rule read as eight bits.
 */
module Rules {
  import opened Bits

  /** Rule 30: the new centre is `left XOR (center OR right)`. */
  function ApplyRule30(left: Bit, center: Bit, right: Bit): (r: Bit)
    ensures center == 0 && right == 0 ==> r == left
    ensures center == 1 || right == 1 ==> r == !left
  {
    left ^ (center | right)
  }

  /** Rule 30 as a truth table: the result is 1 exactly for the neighbourhoods 001, 010, 011 and 100. */
  lemma Rule30TruthTable(left: Bit, center: Bit, right: Bit)
    ensures ApplyRule30(left, center, right) == 1
        <==> TripleIndex(left, center, right) in {1, 2, 3, 4}
  {
  }

  /** The position of a neighbourhood in a Wolfram rule number: `4 * left + 2 * center + right`. */
  function TripleIndex(left: Bit, center: Bit, right: Bit): (k: nat)
    ensures k < 8
  {
    4 * (left as int) + 2 * (center as int) + (right as int)
  }

  /** A rule given by its Wolfram number (a `u8` in `WolframRule`). */
  datatype WolframRule = WolframRule(ruleNumber: bv8)
  {
    /**
     * Looks up the neighbourhood in the rule number. The result is a byte, as `apply` returns it,
     * and it is the table entry for the neighbourhood: 0 or 1, and 1 exactly when that bit of the
     * rule number is set.
     */
    function Apply(left: Bit, center: Bit, right: Bit): (bit: bv8)
      ensures bit == 0 || bit == 1
      ensures bit == 1 <==> ruleNumber & ((1 as bv8) << TripleIndex(left, center, right)) != 0
    {
      var index := ((left as bv8) << 2) | ((center as bv8) << 1) | (right as bv8);
      IndexIsTripleIndex(left, center, right);
      ShiftedBit(ruleNumber, index as int);
      (ruleNumber >> (index as int)) & 1
    }

    /** The rule number, widened to 64 bits by `states`. */
    function States(): (n: nat)
      ensures n < 256
      ensures n as bv8 == ruleNumber
    {
      ruleNumber as nat
    }
  }

  /** The byte index `left << 2 | center << 1 | right` of `WolframRule::apply` is the neighbourhood's position. */
  lemma IndexIsTripleIndex(left: Bit, center: Bit, right: Bit)
    ensures (((left as bv8) << 2) | ((center as bv8) << 1) | (right as bv8)) as int == TripleIndex(left, center, right)
  {
    if left == 0 {
      if center == 0 {
        if right == 0 { } else { }
      } else {
        if right == 0 { } else { }
      }
    } else {
      if center == 0 {
        if right == 0 { } else { }
      } else {
        if right == 0 { } else { }
      }
    }
  }

  /** Shifting bit `k` of a byte down and masking it gives 0 or 1, and 1 exactly when the bit is set. */
  lemma ShiftedBit(n: bv8, k: nat)
    requires k < 8
    ensures (n >> k) & 1 == 0 || (n >> k) & 1 == 1
    ensures (n >> k) & 1 == 1 <==> n & ((1 as bv8) << k) != 0
  {
    if k == 0 {
    } else if k == 1 {
    } else if k == 2 {
    } else if k == 3 {
    } else if k == 4 {
    } else if k == 5 {
    } else if k == 6 {
    } else {
    }
  }

  /** The rules a row can be advanced with (`dyn Rule`). */
  datatype Rule = Rule30 | Wolfram(table: WolframRule)
  {
    function Apply(left: Bit, center: Bit, right: Bit): (b: Bit)
      ensures this == Wolfram(WolframRule(30)) ==> b == ApplyRule30(left, center, right)
    {
      match this
      case Rule30 => ApplyRule30(left, center, right)
      case Wolfram(table) => table.Apply(left, center, right) as Bit
    }
  }

  /** Wolfram rule number 30 is rule 30: the table lookup agrees with the bit formula on all eight neighbourhoods. */
  lemma Wolfram30IsRule30(left: Bit, center: Bit, right: Bit)
    ensures WolframRule(30).Apply(left, center, right) as Bit == ApplyRule30(left, center, right)
    ensures Wolfram(WolframRule(30)).Apply(left, center, right) == Rule30.Apply(left, center, right)
  {
  }
}
