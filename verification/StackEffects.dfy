/** Stack effects (class SType): how many values a word takes and leaves. */
module StackEffects {

  /** -1 stands for an unknown effect (din) or a word that never exits (dout). */
  datatype SType = SType(din: int, dout: int)
  {
    predicate IsKnown() { din >= 0 }

    predicate NoExit() { din >= 0 && dout < 0 }

    predicate Exits() { din >= 0 && dout >= 0 }

    /** Net number of values, for a word that exits. */
    function Net(): int { dout - din }

    predicate IsSubOf(s: SType)
    {
      if !IsKnown() || !s.IsKnown() then false
      else if din > s.din then false
      else if NoExit() then true
      else if s.NoExit() then false
      else din - dout == s.din - s.dout
    }
  }

  const UNKNOWN := SType(-1, -1)

  /** The constructor: anything negative becomes -1. */
  function Make(din: int, dout: int): SType
  {
    SType(if din >= 0 then din else -1, if dout >= 0 then dout else -1)
  }

  /** What an effect promises of one execution: started at depth d it reaches
      no lower than low and, if it returns, returns at depth d'. */
  predicate Allows(s: SType, d: int, low: int, d': int)
  {
    s.IsKnown() && low >= d - s.din && s.dout >= 0 && d' == d + s.dout - s.din
  }

  /** The order of effects is the order of promises: every execution that the
      smaller effect allows is allowed by the larger one. */
  lemma SubEffectAllows(s: SType, t: SType)
    requires s.IsKnown() && s.dout >= -1 && t.IsKnown()
    ensures s.IsSubOf(t) <==>
              s.din <= t.din && forall d, low, d' | Allows(s, d, low, d') :: Allows(t, d, low, d')
  {
    if !s.IsSubOf(t) && s.din <= t.din {
      assert Allows(s, s.din, 0, s.dout);
      assert !Allows(t, s.din, 0, s.dout);
    }
  }
}
