/** The process-wide switchboard of optional engine features: a 32-bit word
    with one bit per feature. */
module Features {

  /** The features; each but `None` owns one bit of the word. */
  datatype Feature = None | Logging | Motion | Gravity | SpatialHash | SimulateFire
  {
    /** Bit 0 for logging, bit 1 for motion, bit 2 for gravity, bit 3 for
        the spatial hash, bit 4 for fire; no bit for `None`. */
    function Mask(): (m: bv32)
      ensures m == 0 <==> this == None
      ensures m & (m - 1) == 0
    {
      match this
      case None => 0x00
      case Logging => 0x01
      case Motion => 0x02
      case Gravity => 0x04
      case SpatialHash => 0x08
      case SimulateFire => 0x10
    }
  }

  /** Distinct features own disjoint bits, so no two real features share a
      mask. */
  lemma MasksDisjoint(f: Feature, g: Feature)
    requires f != g
    ensures f.Mask() & g.Mask() == 0
    ensures f != None ==> f.Mask() != g.Mask()
  {
  }

  /** Whether feature `f` is on in the word `flags`. */
  predicate Has(flags: bv32, f: Feature): (on: bool) {
    flags & f.Mask() != 0
  }

  /** The word after switching `f` on, off, or over. */
  function Set(flags: bv32, f: Feature): (word: bv32) {
    flags | f.Mask()
  }

  function Clear(flags: bv32, f: Feature): (word: bv32) {
    flags & !f.Mask()
  }

  function Flip(flags: bv32, f: Feature): (word: bv32) {
    flags ^ f.Mask()
  }

  /** `None` is never on. */
  lemma NoneNeverOn(flags: bv32)
    ensures !Has(flags, None)
  {
  }

  /** Word facts: or-ing in, clearing or flipping a mask `m` sets, clears
      or inverts its bits and keeps the bits of any disjoint mask `n`. */
  lemma OrSelf(flags: bv32, m: bv32)
    ensures (flags | m) & m == m
  {
  }

  lemma AndNotSelf(flags: bv32, m: bv32)
    ensures (flags & !m) & m == 0
  {
  }

  lemma XorSelf(flags: bv32, m: bv32)
    requires flags & m == 0 || flags & m == m
    ensures (flags ^ m) & m != 0 <==> m != 0 && flags & m == 0
  {
  }

  /** A word meets a single-bit mask only by holding all of it. */
  lemma MeetsSingleBit(flags: bv32, f: Feature)
    ensures flags & f.Mask() == 0 || flags & f.Mask() == f.Mask()
  {
    match f
    case None =>
    case Logging =>
    case Motion =>
    case Gravity =>
    case SpatialHash =>
    case SimulateFire =>
  }

  lemma OrDisjoint(flags: bv32, m: bv32, n: bv32)
    requires m & n == 0
    ensures (flags | m) & n == flags & n
  {
  }

  lemma AndNotDisjoint(flags: bv32, m: bv32, n: bv32)
    requires m & n == 0
    ensures (flags & !m) & n == flags & n
  {
  }

  lemma XorDisjoint(flags: bv32, m: bv32, n: bv32)
    requires m & n == 0
    ensures (flags ^ m) & n == flags & n
  {
  }

  /** Switching a feature on turns it on, unless it is `None`. */
  lemma SetSelf(flags: bv32, f: Feature)
    ensures Has(Set(flags, f), f) <==> f != None
  {
    OrSelf(flags, f.Mask());
  }

  /** Switching a feature off turns it off. */
  lemma ClearSelf(flags: bv32, f: Feature)
    ensures !Has(Clear(flags, f), f)
  {
    AndNotSelf(flags, f.Mask());
  }

  /** Flipping a feature other than `None` inverts it. */
  lemma FlipSelf(flags: bv32, f: Feature)
    ensures Has(Flip(flags, f), f) <==> f != None && !Has(flags, f)
  {
    MeetsSingleBit(flags, f);
    XorSelf(flags, f.Mask());
  }

  /** Switching `f` on, off or over leaves a feature whose mask is disjoint
      from `f`'s as it was. */
  lemma SetOther(flags: bv32, f: Feature, g: Feature)
    requires f.Mask() & g.Mask() == 0
    ensures Has(Set(flags, f), g) <==> Has(flags, g)
  {
    OrDisjoint(flags, f.Mask(), g.Mask());
  }

  lemma ClearOther(flags: bv32, f: Feature, g: Feature)
    requires f.Mask() & g.Mask() == 0
    ensures Has(Clear(flags, f), g) <==> Has(flags, g)
  {
    AndNotDisjoint(flags, f.Mask(), g.Mask());
  }

  lemma FlipOther(flags: bv32, f: Feature, g: Feature)
    requires f.Mask() & g.Mask() == 0
    ensures Has(Flip(flags, f), g) <==> Has(flags, g)
  {
    XorDisjoint(flags, f.Mask(), g.Mask());
  }

  /** Switching a feature on turns it on and leaves every other feature as
      it was. */
  lemma SetEffect(flags: bv32, f: Feature, g: Feature)
    ensures Has(Set(flags, f), g) <==> Has(flags, g) || (g == f && f != None)
  {
    if g == f {
      SetSelf(flags, f);
    } else {
      MasksDisjoint(f, g);
      SetOther(flags, f, g);
    }
  }

  /** Switching a feature off turns it off and leaves every other feature as
      it was. */
  lemma ClearEffect(flags: bv32, f: Feature, g: Feature)
    ensures Has(Clear(flags, f), g) <==> Has(flags, g) && g != f
  {
    if g == f {
      ClearSelf(flags, f);
    } else {
      MasksDisjoint(f, g);
      ClearOther(flags, f, g);
    }
  }

  /** Flipping a feature inverts it and leaves every other feature as it
      was. */
  lemma FlipEffect(flags: bv32, f: Feature, g: Feature)
    ensures Has(Flip(flags, f), g) <==> if g == f && f != None then !Has(flags, g) else Has(flags, g)
  {
    if g == f {
      FlipSelf(flags, f);
    } else {
      MasksDisjoint(f, g);
      FlipOther(flags, f, g);
    }
  }

  /** The bits outside a feature's mask are never touched. */
  lemma SetKeepsOtherBits(flags: bv32, f: Feature)
    ensures Set(flags, f) & !f.Mask() == flags & !f.Mask()
  {
  }

  lemma ClearKeepsOtherBits(flags: bv32, f: Feature)
    ensures Clear(flags, f) & !f.Mask() == flags & !f.Mask()
  {
  }

  lemma FlipKeepsOtherBits(flags: bv32, f: Feature)
    ensures Flip(flags, f) & !f.Mask() == flags & !f.Mask()
  {
  }

  /** Switching on or off twice is switching once. */
  lemma SetIdempotent(flags: bv32, f: Feature)
    ensures Set(Set(flags, f), f) == Set(flags, f)
  {
  }

  lemma ClearIdempotent(flags: bv32, f: Feature)
    ensures Clear(Clear(flags, f), f) == Clear(flags, f)
  {
  }

  /** Flipping twice restores the word. */
  lemma FlipTwice(flags: bv32, f: Feature)
    ensures Flip(Flip(flags, f), f) == flags
  {
  }

  /** The flag word. Its single instance lives in static storage, so the word
      starts out zero: every feature off. */
  class FeatureFlags {
    var flags: bv32

    constructor()
      ensures flags == 0
      ensures forall f: Feature :: !IsEnabled(f)
    {
      flags := 0;
    }

    method Enable(f: Feature)
      modifies this
      ensures flags == Set(old(flags), f)
      ensures f != None ==> IsEnabled(f)
    {
      SetEffect(flags, f, f);
      flags := flags | f.Mask();
    }

    method Disable(f: Feature)
      modifies this
      ensures flags == Clear(old(flags), f)
      ensures !IsEnabled(f)
    {
      ClearEffect(flags, f, f);
      flags := flags & !f.Mask();
    }

    method Toggle(f: Feature)
      modifies this
      ensures flags == Flip(old(flags), f)
      ensures f != None ==> IsEnabled(f) == !old(IsEnabled(f))
    {
      FlipEffect(flags, f, f);
      flags := flags ^ f.Mask();
    }

    function IsEnabled(f: Feature): (on: bool)
      reads this
      ensures f == None ==> !on
      ensures on ==> flags != 0
    {
      Has(flags, f)
    }

    method SetAll(newFlags: bv32)
      modifies this
      ensures flags == newFlags
      ensures GetAll() == newFlags
    {
      flags := newFlags;
    }

    /** The whole word: exactly the enabled features have their bit set. */
    function GetAll(): (word: bv32)
      reads this
      ensures forall f: Feature :: Has(word, f) <==> IsEnabled(f)
    {
      flags
    }
  }
}
