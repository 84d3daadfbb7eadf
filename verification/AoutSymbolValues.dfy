/** What an a.out symbol becomes in the output: its type byte and its value. */
module AoutSymbolValues {
  import opened Words
  import opened AoutTypes

  const N_INDR: Byte := 0x0a
  const N_SETA: Byte := 0x14
  const N_SETT: Byte := 0x16
  const N_SETD: Byte := 0x18
  const N_SETB: Byte := 0x1a
  const N_WARNING: Byte := 0x1e
  const N_WEAKU: Byte := 0x0d
  const N_WEAKA: Byte := 0x0e
  const N_WEAKT: Byte := 0x0f
  const N_WEAKD: Byte := 0x10
  const N_WEAKB: Byte := 0x11

  // ---- type bytes ----

  /** `type & N_STAB`. */
  predicate IsStab(t: Byte) {
    t >= 0x20
  }

  /** `type &~ N_TYPE | n`, for a type code below 0x20. */
  function WithType(t: Byte, n: Byte): (r: Byte)
    requires n < 0x20
    ensures TypeBits(r) == TypeBits(n) && (r % 2 == 1 <==> t % 2 == 1 || n % 2 == 1) && (t < 0x20 ==> r < 0x20)
  {
    var e := if t % 2 == 1 || n % 2 == 1 then 1 else 0;
    BitsOf(t / 0x20, n / 2 % 16, e);
    t / 0x20 * 0x20 + TypeBits(n) + e
  }

  lemma BitsOf(q: int, c: int, e: int)
    requires 0 <= c < 16 && 0 <= e < 2
    ensures var r := 0x20 * q + 2 * c + e; r / 2 % 16 == c && r % 2 == e
  {
    var r := 0x20 * q + 2 * c + e;
    assert r / 2 == 16 * q + c;
    DivModUnique(r / 2, q, c, 16);
  }

  /** `type | N_EXT`. */
  function External(t: Byte): (r: Byte)
    ensures TypeBits(r) == TypeBits(t) && r % 2 == 1 && r / 0x20 == t / 0x20
  {
    if t % 2 == 0 then t + 1 else t
  }

  predicate IsSet(t: Byte) {
    t == N_SETT || t == N_SETD || t == N_SETB || t == N_SETA
  }

  // ---- sections and symbols ----

  /** The output section that a section goes to. */
  datatype Place = InText | InData | InBss | Elsewhere

  /** A section of an input, with where it went. */
  datatype Section = Section(vma: int, place: Place, outVma: int, outOffset: int)

  const ABS := Section(0, Elsewhere, 0, 0)

  datatype Sections = Sections(text: Section, data: Section, bss: Section)

  datatype Sym = Sym(name: seq<Byte>, type_: Byte, other: Byte, desc: int, value: int)

  /** The state of a global symbol after all inputs were read. */
  datatype Kind =
    | New
    | Undefined
    | UndefWeak
    | Defined(section: Section, value: int)
    | DefWeak(section: Section, value: int)
    | Common(size: int)
    | Indirect
    | Warning

  /** Where a byte of a section ends up. */
  function Moved(s: Section, address: int): int {
    Wrap(s.outVma + s.outOffset + (address - s.vma))
  }

  function DefinedAt(k: Kind): int
    requires k.Defined? || k.DefWeak?
  {
    Wrap(k.value + k.section.outVma + k.section.outOffset)
  }

  /** The type code of a definition, from the output section it is in. */
  function DefinedType(k: Kind): (t: Byte)
    requires k.Defined? || k.DefWeak?
    ensures t < 0x20
  {
    match k.section.place
    case InText => if k.Defined? then N_TEXT else N_WEAKT
    case InData => if k.Defined? then N_DATA else N_WEAKD
    case InBss => if k.Defined? then N_BSS else N_WEAKB
    case Elsewhere => if k.Defined? then N_ABS else N_WEAKA
  }

  /** What an input symbol becomes: type, value, whether the next symbol passes through unchanged or is skipped. */
  datatype Meaning = Meaning(type_: Byte, val: int, pass: bool, skip: bool)

  /** `base` is what the symbol's hash entry resolves to, if it has one. */
  function MeaningOf(secs: Sections, sym: Sym, base: Option<Kind>): Meaning {
    var t := sym.type_;
    var b := TypeBits(t);
    if b == N_TEXT || t == N_WEAKT then Meaning(t, Moved(secs.text, sym.value), false, false)
    else if b == N_DATA || t == N_WEAKD then Meaning(t, Moved(secs.data, sym.value), false, false)
    else if b == N_BSS || t == N_WEAKB then Meaning(t, Moved(secs.bss, sym.value), false, false)
    else if b == N_ABS || t == N_WEAKA then Meaning(t, Moved(ABS, sym.value), false, false)
    else if (b == N_INDR && !Settled(base)) || t == N_WARNING then Meaning(t, Wrap(sym.value), true, false)
    else if IsStab(t) then Meaning(t, Wrap(sym.value), false, false)
    else FromHash(secs, sym, base, b == N_INDR)
  }

  /** Indirect symbols that resolve to such an entry are output with its definition. */
  predicate Settled(base: Option<Kind>) {
    base.Some? && (base.value.Defined? || base.value.DefWeak? || base.value.Common?)
  }

  /** The type of a symbol that is output with definition `k`; an element of a set becomes globally visible. */
  function DefinedAs(t: Byte, k: Kind): Byte
    requires k.Defined? || k.DefWeak?
  {
    WithType(if IsSet(t) then External(t) else t, DefinedType(k))
  }

  function FromHash(secs: Sections, sym: Sym, base: Option<Kind>, skip: bool): Meaning {
    var t := sym.type_;
    match base
    case None =>
      var b := TypeBits(t);
      Meaning(t, if b == N_SETT then Moved(secs.text, sym.value)
                 else if b == N_SETD then Moved(secs.data, sym.value)
                 else if b == N_SETB then Moved(secs.bss, sym.value)
                 else if b == N_SETA then Moved(ABS, sym.value) else 0, false, skip)
    case Some(k) =>
      match k {
        case Defined(_, _) => Meaning(DefinedAs(t, k), DefinedAt(k), false, skip)
        case DefWeak(_, _) => Meaning(DefinedAs(t, k), DefinedAt(k), false, skip)
        case Common(size) => Meaning(t, Wrap(size), false, skip)
        case UndefWeak => Meaning(N_WEAKU, 0, false, skip)
        case _ => Meaning(t, 0, false, skip)
      }
  }

  /** The code behind `MeaningOf`. */
  method FindMeaning(secs: Sections, sym: Sym, base: Option<Kind>)
    returns (type_: Byte, val: int, pass: bool, skip: bool)
    ensures MeaningOf(secs, sym, base) == Meaning(type_, val, pass, skip)
  {
    type_, val, pass, skip := sym.type_, 0, false, false;
    var symsec: Option<Section> := None;
    if TypeBits(type_) == N_TEXT || type_ == N_WEAKT {
      symsec := Some(secs.text);
    } else if TypeBits(type_) == N_DATA || type_ == N_WEAKD {
      symsec := Some(secs.data);
    } else if TypeBits(type_) == N_BSS || type_ == N_WEAKB {
      symsec := Some(secs.bss);
    } else if TypeBits(type_) == N_ABS || type_ == N_WEAKA {
      symsec := Some(ABS);
    } else if (TypeBits(type_) == N_INDR
               && (base.None? || (!base.value.Defined? && !base.value.DefWeak? && !base.value.Common?)))
              || type_ == N_WARNING {
      pass := true;
      val := Wrap(sym.value);
    } else if IsStab(type_) {
      val := Wrap(sym.value);
    } else {
      if TypeBits(type_) == N_INDR {
        skip := true;
      }
      if base.None? {
        symsec := if TypeBits(type_) == N_SETT then Some(secs.text)
                  else if TypeBits(type_) == N_SETD then Some(secs.data)
                  else if TypeBits(type_) == N_SETB then Some(secs.bss)
                  else if TypeBits(type_) == N_SETA then Some(ABS) else None;
      } else if base.value.Defined? || base.value.DefWeak? {
        val := DefinedAt(base.value);
        if IsSet(type_) {
          type_ := External(type_);
        }
        type_ := WithType(type_, DefinedType(base.value));
      } else if base.value.Common? {
        val := Wrap(base.value.size);
      } else if base.value.UndefWeak? {
        type_ := N_WEAKU;
      }
    }
    if symsec.Some? {
      val := Moved(symsec.value, sym.value);
    }
  }

  // ---- symbols that no input's symbol stands for ----

  datatype Nlist = Nlist(name: seq<Byte>, type_: Byte, other: Byte, desc: int, value: int)

  /** What `aout_link_write_other_symbol` outputs for an entry of a kind, if anything. The case of a weak undefined
      symbol runs into the one that outputs nothing. */
  function OtherRecord(name: seq<Byte>, k: Kind): Option<Nlist> {
    match k
    case Undefined => Some(Nlist(name, N_EXT, 0, 0, 0))
    case Defined(_, _) => Some(Nlist(name, External(DefinedType(k)), 0, 0, DefinedAt(k)))
    case DefWeak(_, _) => Some(Nlist(name, External(DefinedType(k)), 0, 0, DefinedAt(k)))
    case Common(size) => Some(Nlist(name, N_EXT, 0, 0, Wrap(size)))
    case _ => None
  }

  predicate Writable(k: Kind) {
    k.Undefined? || k.Defined? || k.DefWeak? || k.Common?
  }

  // ---- what the types mean, code by code ----

  /** A symbol of a section, weak or not, moves with the section, an absolute one keeps its value, and so do a
      debugging symbol, a warning and an indirect symbol that leads to no definition; the last two let the next symbol
      pass. None of them asks the hash table for more. */
  lemma OwnMeaning(secs: Sections, sym: Sym, base: Option<Kind>)
    ensures var t, n, m := sym.type_, sym.type_ / 2 % 0x10, MeaningOf(secs, sym, base);
      var v := sym.value;
      && (n == 2 || t == 0x0f ==>
           m == Meaning(t, (v + secs.text.outVma + secs.text.outOffset - secs.text.vma) % WORD, false, false))
      && (n == 3 || t == 0x10 ==>
           m == Meaning(t, (v + secs.data.outVma + secs.data.outOffset - secs.data.vma) % WORD, false, false))
      && (n == 4 || t == 0x11 ==>
           m == Meaning(t, (v + secs.bss.outVma + secs.bss.outOffset - secs.bss.vma) % WORD, false, false))
      && (n == 1 || t == 0x0e ==> m == Meaning(t, v % WORD, false, false))
      && (t >= 0x20 && n !in {1, 2, 3, 4, 5} ==> m == Meaning(t, v % WORD, false, false))
      && (t == 0x1e || (n == 5 && !(base.Some? && (base.value.Defined? || base.value.DefWeak? || base.value.Common?)))
          ==> m == Meaning(t, v % WORD, true, false))
  {
  }

  /** The types that leave the rest to the hash table. */
  predicate LeftToHash(t: Byte) {
    t < 0x20 && t / 2 !in {1, 2, 3, 4} && t !in {0x0e, 0x0f, 0x10, 0x11, 0x1e}
  }

  /** Any other symbol with an entry gets the address of the definition, weak or not, the size of a common symbol, or
      0, and the type that says where the definition is; it hides the next symbol if it is an indirect one. */
  lemma HashMeaning(secs: Sections, sym: Sym, k: Kind)
    requires LeftToHash(sym.type_) && (sym.type_ / 2 == 5 ==> k.Defined? || k.DefWeak? || k.Common?)
    ensures var t, m := sym.type_, MeaningOf(secs, sym, Some(k));
      var e := if t % 2 == 1 || t in {0x14, 0x16, 0x18, 0x1a} then 1 else 0;
      && !m.pass && m.skip == (t / 2 == 5)
      && match k
         case Defined(s, value) =>
           && m.val == (value + s.outVma + s.outOffset) % WORD
           && m.type_ == e + (match s.place case InText => 4 case InData => 6 case InBss => 8 case Elsewhere => 2)
         case DefWeak(s, value) =>
           && m.val == (value + s.outVma + s.outOffset) % WORD
           && m.type_ == (match s.place
                          case InText => 0x0f case InData => 0x10 + e case InBss => 0x11 case Elsewhere => 0x0e + e)
         case Common(size) => m.val == size % WORD && m.type_ == t
         case UndefWeak => m.val == 0 && m.type_ == 0x0d
         case _ => m.val == 0 && m.type_ == t
  {
    hide DefinedAs, Moved;
    if k.Defined? || k.DefWeak? {
      DefinitionType(sym.type_, k);
    }
  }

  lemma DefinitionType(t: Byte, k: Kind)
    requires t < 0x20 && (k.Defined? || k.DefWeak?)
    ensures var e := if t % 2 == 1 || t in {0x14, 0x16, 0x18, 0x1a} then 1 else 0;
      DefinedAs(t, k)
      == match k.section.place
         case InText => if k.Defined? then 4 + e else 0x0f
         case InData => (if k.Defined? then 6 else 0x10) + e
         case InBss => if k.Defined? then 8 + e else 0x11
         case Elsewhere => (if k.Defined? then 2 else 0x0e) + e
  {
    hide WithType;
    TypeByte(if IsSet(t) then External(t) else t, DefinedType(k));
  }

  lemma TypeByte(t: Byte, n: Byte)
    requires t < 0x20 && n < 0x20
    ensures WithType(t, n) == n - n % 2 + if t % 2 == 1 || n % 2 == 1 then 1 else 0
  {
  }

  /** Without an entry only an element of a set has a value: it moves with its section, or keeps it. */
  lemma SetElementMeaning(secs: Sections, sym: Sym)
    requires LeftToHash(sym.type_) && sym.type_ / 2 != 5
    ensures var n, v := sym.type_ / 2, sym.value;
      MeaningOf(secs, sym, None)
      == Meaning(sym.type_,
                 if n == 11 then (v + secs.text.outVma + secs.text.outOffset - secs.text.vma) % WORD
                 else if n == 12 then (v + secs.data.outVma + secs.data.outOffset - secs.data.vma) % WORD
                 else if n == 13 then (v + secs.bss.outVma + secs.bss.outOffset - secs.bss.vma) % WORD
                 else if n == 10 then v % WORD
                 else 0, false, false)
  {
  }

  /** An entry that nothing stands for is output as what it is, globally visible, unless its kind is not output. */
  lemma OtherMeaning(name: seq<Byte>, k: Kind)
    ensures var rec := OtherRecord(name, k);
      match k
      case Undefined => rec == Some(Nlist(name, 1, 0, 0, 0))
      case Common(size) => rec == Some(Nlist(name, 1, 0, 0, size % WORD))
      case Defined(s, value) =>
        rec == Some(Nlist(name, match s.place case InText => 5 case InData => 7 case InBss => 9 case Elsewhere => 3,
                          0, 0, (value + s.outVma + s.outOffset) % WORD))
      case DefWeak(s, value) =>
        rec == Some(Nlist(name, if s.place == InText || s.place == Elsewhere then 0x0f else 0x11,
                          0, 0, (value + s.outVma + s.outOffset) % WORD))
      case _ => rec == None
  {
  }

  // ---- the ways agree ----

  /** A symbol that stands for its own definition gets the same address directly and by way of the hash table:
      from an input's symbol, through an indirect symbol, and when nothing stands for it. */
  lemma SameAddress(secs: Sections, sym: Sym, via: Sym, s: Section, weak: bool)
    requires (s == secs.text && (TypeBits(sym.type_) == N_TEXT || sym.type_ == N_WEAKT))
          || (s == secs.data && (TypeBits(sym.type_) == N_DATA || sym.type_ == N_WEAKD))
          || (s == secs.bss && (TypeBits(sym.type_) == N_BSS || sym.type_ == N_WEAKB))
    requires TypeBits(via.type_) == N_INDR && !IsStab(via.type_)
    ensures var k := if weak then DefWeak(s, sym.value - s.vma) else Defined(s, sym.value - s.vma);
            && MeaningOf(secs, sym, None).val == MeaningOf(secs, via, Some(k)).val
            && OtherRecord(via.name, k).value.value == MeaningOf(secs, sym, None).val
  {
  }

  /** An external definition has the same type byte whichever way it is output. */
  lemma SameType(secs: Sections, via: Sym, k: Kind)
    requires (k.Defined? || k.DefWeak?) && via.type_ == N_INDR + N_EXT
    ensures MeaningOf(secs, via, Some(k)).type_ == OtherRecord(via.name, k).value.type_
  {
  }

  /** How readers understand the type byte of a definition: its place and whether it is weak. */
  function Understood(t: Byte): Option<(Place, bool)> {
    if t == N_WEAKT then Some((InText, true))
    else if t == N_WEAKD then Some((InData, true))
    else if t == N_WEAKB then Some((InBss, true))
    else if t == N_WEAKA then Some((Elsewhere, true))
    else if TypeBits(t) == N_TEXT then Some((InText, false))
    else if TypeBits(t) == N_DATA then Some((InData, false))
    else if TypeBits(t) == N_BSS then Some((InBss, false))
    else if TypeBits(t) == N_ABS then Some((Elsewhere, false))
    else None
  }

  /** The type byte of an external definition says where the symbol is, except for weak symbols in data and in no
      section: the external bit turns their codes into those of weak bss and weak text symbols. */
  lemma TypeSaysWhere(name: seq<Byte>, k: Kind)
    requires k.Defined? || k.DefWeak?
    ensures Understood(OtherRecord(name, k).value.type_) == Some((k.section.place, k.DefWeak?))
       <==> !(k.DefWeak? && (k.section.place == InData || k.section.place == Elsewhere))
  {
    assert External(N_WEAKD) == N_WEAKB && External(N_WEAKA) == N_WEAKT;
    assert External(N_TEXT) == 5 && External(N_DATA) == 7 && External(N_BSS) == 9 && External(N_ABS) == 3;
  }
}
