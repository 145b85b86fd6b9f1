/** The text protocol of the VGA arbiter: what is printed for it, and how its answers are parsed. */
module VgaArb {
  import opened CTypes
  import opened CString

  const VGA_ARB_RSRC_NONE := 0
  const VGA_ARB_RSRC_LEGACY_IO := 1
  const VGA_ARB_RSRC_LEGACY_MEM := 2

  function RsrcToStr(iostate: int): string {
    match iostate
    case 3 => "io+mem"
    case 1 => "io"
    case 2 => "mem"
    case _ => "none"
  }

  /** The target that pci_device_vgaarb_set_target names. */
  function SlotText(domain: nat, bus: nat, dev: nat, func: nat): string {
    "PCI:" + Padded(domain, 4) + ":" + Padded(bus, 2) + ":" + Padded(dev, 2) + "." + Padded(func, 1)
  }

  /** An answer of the arbiter: the count, the slot, what it decodes, and more fields after a comma. */
  function Answer(count: nat, slot: string, rsrc: int, more: string): string {
    "count:" + Digits(count, false) + "," + slot + "," + "decodes=" + RsrcToStr(rsrc) + more
  }

  /** What one parse stores: the fields up to the point where a token is missing, and the resources it returns. */
  datatype Slot = Slot(domain: Option<nat>, bus: Option<nat>, dev: Option<nat>, func: Option<nat>)
  datatype Parsed = Parsed(count: Option<int>, slot: Slot, rsrc: nat)

  const NO_SLOT := Slot(None, None, None, None)

  function CountField(head: string): Option<int> {
    var title := Strtok(Take(head, 15), ':');
    if title.NoToken? then None else
    var number := Strtok(title.rest, ':');
    if number.NoToken? then None else Some(Int32(Strtoul(number.text, false)))
  }

  function HexField(t: Token): nat
    requires t.Token?
  {
    Card32(Strtoul(t.text, true))
  }

  function SlotField(text: string): Slot {
    var title := Strtok(Take(text, 31), ':');
    if title.NoToken? then NO_SLOT else
    var domain := Strtok(title.rest, ':');
    if domain.NoToken? then NO_SLOT else
    var bus := Strtok(domain.rest, ':');
    if bus.NoToken? then Slot(Some(HexField(domain)), None, None, None) else
    var dev := Strtok(bus.rest, '.');
    if dev.NoToken? then Slot(Some(HexField(domain)), Some(HexField(bus)), None, None) else
    var func := Strtok(dev.rest, '.');
    if func.NoToken? then Slot(Some(HexField(domain)), Some(HexField(bus)), Some(HexField(dev)), None)
    else Slot(Some(HexField(domain)), Some(HexField(bus)), Some(HexField(dev)), Some(HexField(func)))
  }

  function RsrcField(rest: string): nat {
    var decodes := Strtok(rest, ',');
    if decodes.NoToken? then VGA_ARB_RSRC_NONE else
    var title := Strtok(decodes.text, '=');
    if title.NoToken? then VGA_ARB_RSRC_NONE else
    var rsrc := Strtok(title.rest, '=');
    if rsrc.NoToken? then VGA_ARB_RSRC_NONE
    else if "io+mem" <= rsrc.text then VGA_ARB_RSRC_LEGACY_IO + VGA_ARB_RSRC_LEGACY_MEM
    else if "io" <= rsrc.text then VGA_ARB_RSRC_LEGACY_IO
    else if "mem" <= rsrc.text then VGA_ARB_RSRC_LEGACY_MEM
    else VGA_ARB_RSRC_NONE
  }

  function Parse(input: string, withSlot: bool): Parsed {
    var count := Strtok(input, ',');
    if count.NoToken? then Parsed(None, NO_SLOT, VGA_ARB_RSRC_NONE) else
    var n := CountField(count.head);
    var slot := Strtok(count.rest, ',');
    if n == None || slot.NoToken? then Parsed(n, NO_SLOT, VGA_ARB_RSRC_NONE) else
    var fields := if withSlot then SlotField(slot.text) else NO_SLOT;
    Parsed(n, fields, if withSlot && fields.func == None then VGA_ARB_RSRC_NONE else RsrcField(slot.rest))
  }

  function Or<T>(o: Option<T>, was: T): T {
    if o.Some? then o.value else was
  }

  class SlotMatch {
    var domain: nat
    var bus: nat
    var dev: nat
    var func: nat

    constructor (domain: nat, bus: nat, dev: nat, func: nat)
      ensures this.domain == domain && this.bus == bus && this.dev == dev && this.func == func
    {
      this.domain, this.bus, this.dev, this.func := domain, bus, dev, func;
    }

    /** The slot part of the parse: each field is stored as soon as its token is found. */
    method Store(text: string) returns (complete: bool)
      modifies this
      ensures domain == Or(SlotField(text).domain, old(domain)) && bus == Or(SlotField(text).bus, old(bus))
      ensures dev == Or(SlotField(text).dev, old(dev)) && func == Or(SlotField(text).func, old(func))
      ensures complete == SlotField(text).func.Some?
    {
      hide Strtok, Strtoul, Take;
      complete := false;
      var tok := Strtok(Take(text, 31), ':');
      if tok.NoToken? { return; }
      tok := Strtok(tok.rest, ':');
      if tok.NoToken? { return; }
      domain := Card32(Strtoul(tok.text, true));
      tok := Strtok(tok.rest, ':');
      if tok.NoToken? { return; }
      bus := Card32(Strtoul(tok.text, true));
      tok := Strtok(tok.rest, '.');
      if tok.NoToken? { return; }
      dev := Card32(Strtoul(tok.text, true));
      tok := Strtok(tok.rest, '.');
      if tok.NoToken? { return; }
      func := Card32(Strtoul(tok.text, true));
      complete := true;
    }
  }

  class Arbiter {
    var vgaCount: int

    constructor () { vgaCount := 0; }

    /** Parses an answer of the arbiter; the slot is wanted when target is given. */
    method ParseStringToDecodesRsrc(input: string, target: SlotMatch?) returns (rsrc: nat)
      modifies this, target
      ensures rsrc == Parse(input, target != null).rsrc
      ensures vgaCount == Or(Parse(input, target != null).count, old(vgaCount))
      ensures target != null ==>
        && var slot := Parse(input, true).slot;
        && target.domain == Or(slot.domain, old(target.domain)) && target.bus == Or(slot.bus, old(target.bus))
        && target.dev == Or(slot.dev, old(target.dev)) && target.func == Or(slot.func, old(target.func))
    {
      hide Strtok, Strtoul, Take, SlotField;
      var inputTok := Strtok(input, ',');
      if inputTok.NoToken? { return VGA_ARB_RSRC_NONE; }
      var tok := Strtok(Take(inputTok.head, 15), ':');
      if tok.NoToken? { return VGA_ARB_RSRC_NONE; }
      tok := Strtok(tok.rest, ':');
      if tok.NoToken? { return VGA_ARB_RSRC_NONE; }
      vgaCount := Int32(Strtoul(tok.text, false));
      inputTok := Strtok(inputTok.rest, ',');
      if inputTok.NoToken? { return VGA_ARB_RSRC_NONE; }
      if target != null {
        var complete := target.Store(inputTok.text);
        if !complete { return VGA_ARB_RSRC_NONE; }
      }
      tok := Strtok(inputTok.rest, ',');
      if tok.NoToken? { return VGA_ARB_RSRC_NONE; }
      tok := Strtok(tok.text, '=');
      if tok.NoToken? { return VGA_ARB_RSRC_NONE; }
      tok := Strtok(tok.rest, '=');
      if tok.NoToken? { return VGA_ARB_RSRC_NONE; }
      if "io+mem" <= tok.text { return VGA_ARB_RSRC_LEGACY_IO + VGA_ARB_RSRC_LEGACY_MEM; }
      if "io" <= tok.text { return VGA_ARB_RSRC_LEGACY_IO; }
      if "mem" <= tok.text { return VGA_ARB_RSRC_LEGACY_MEM; }
      return VGA_ARB_RSRC_NONE;
    }
  }

  lemma PowersOfTen()
    ensures Power(false, 9) == 1_000_000_000 && Power(false, 10) == 10_000_000_000
  {
    assert Power(false, 3) == 1000;
    assert Power(false, 6) == 1_000_000;
  }

  lemma PowersOfSixteen()
    ensures Power(true, 2) == 0x100 && Power(true, 8) == 0x1_0000_0000
  {
    assert Power(true, 4) == 0x1_0000;
    assert Power(true, 6) == 0x100_0000;
  }

  /** Digits hold no delimiter. */
  lemma NoDelimiter(s: string, hex: bool)
    requires AllInBase(s, hex)
    ensures ',' !in s && ':' !in s && '.' !in s && '=' !in s
  {}

  /** The slot printed for a device is parsed back, field for field. */
  lemma SlotRoundTrip(domain: nat, bus: nat, dev: nat, func: nat)
    requires domain < 0x1_0000_0000 && bus < 0x100 && dev < 0x100 && func < 0x100
    ensures SlotField(SlotText(domain, bus, dev, func)) == Slot(Some(domain), Some(bus), Some(dev), Some(func))
  {
    hide Strtok, Strtoul, Padded, Digits, Power;
    var a, b, c, d := Padded(domain, 4), Padded(bus, 2), Padded(dev, 2), Padded(func, 1);
    var text := SlotText(domain, bus, dev, func);
    PowersOfSixteen();
    PaddedLength(domain, 4, 8); PaddedLength(bus, 2, 2); PaddedLength(dev, 2, 2); PaddedLength(func, 1, 2);
    NoDelimiter(a, true); NoDelimiter(b, true); NoDelimiter(c, true); NoDelimiter(d, true);
    var afterBus := c + ['.'] + d;
    var afterDomain := b + [':'] + afterBus;
    var afterLabel := a + [':'] + afterDomain;
    assert text == "PCI" + [':'] + afterLabel;
    FirstToken("PCI", ':', afterLabel);
    FirstToken(a, ':', afterDomain);
    FirstToken(b, ':', afterBus);
    FirstToken(c, '.', d);
    LastToken(d, '.');
    HexConverts(domain, 4); HexConverts(bus, 2); HexConverts(dev, 2); HexConverts(func, 1);
  }

  lemma HexConverts(n: nat, width: nat)
    requires n <= ULONG_MAX
    ensures Strtoul(Padded(n, width), true) == n
  {
    PaddedConverts(n, width, []);
    assert Padded(n, width) + [] == Padded(n, width);
  }

  /** Fifteen characters hold the label and nine digits. */
  lemma CountCut(count: nat)
    requires count < 0x8000_0000
    ensures Take("count:" + Digits(count, false), 15)
         == "count:" + Digits(if count < 1_000_000_000 then count else count / 10, false)
  {
    hide Power, Times, AllInBase;
    var s := Digits(count, false);
    DigitCount(count, 9, false);
    DigitCount(count, 10, false);
    PowersOfTen();
    if count >= 1_000_000_000 {
      assert |s| == 10 && s == Digits(count / 10, false) + [DigitChar(count % 10)];
      assert s[..9] == Digits(count / 10, false);
      assert ("count:" + s)[..15] == "count:" + s[..9];
    }
  }

  /** The count is read from the first 15 characters: its tenth digit is cut off. */
  lemma CountRoundTrip(count: nat)
    requires count < 0x8000_0000
    ensures CountField("count:" + Digits(count, false)) == Some(if count < 1_000_000_000 then count else count / 10)
  {
    hide Strtok, Strtoul, Digits, Take;
    CountCut(count);
    var m := if count < 1_000_000_000 then count else count / 10;
    var t := Digits(m, false);
    assert "count:" + t == "count" + [':'] + t;
    NoDelimiter(t, false);
    FirstToken("count", ':', t);
    LastToken(t, ':');
    DecimalConverts(m);
  }

  /** What is decoded is read from the third field, whatever follows it. */
  lemma RsrcRoundTrip(rsrc: nat, more: string)
    requires rsrc < 4 && (more == [] || more[0] == ',')
    ensures RsrcField("decodes=" + RsrcToStr(rsrc) + more) == rsrc
  {
    hide Strtok;
    var name := RsrcToStr(rsrc);
    var field := "decodes" + ['='] + name;
    assert ',' !in name && '=' !in name && ',' !in field;
    if more == [] {
      assert "decodes=" + name + more == field;
      LastToken(field, ',');
    } else {
      assert "decodes=" + name + more == field + [','] + more[1..];
      FirstToken(field, ',', more[1..]);
    }
    FirstToken("decodes", '=', name);
    LastToken(name, '=');
    RsrcPrefixes();
  }

  lemma RsrcPrefixes()
    ensures "io+mem" <= "io+mem" && !("io+mem" <= "io") && "io" <= "io"
    ensures !("io+mem" <= "mem") && !("io" <= "mem") && "mem" <= "mem"
    ensures !("io+mem" <= "none") && !("io" <= "none") && !("mem" <= "none")
  {
    assert "mem"[0] == 'm' && "none"[0] == 'n' && "io"[0] == 'i';
  }

  /**
   * Parsing undoes printing: of an answer made with the slot format and rsrc_to_str, the slot and the resources come
   * back, and the count comes back exactly when it has at most nine digits.
   */
  lemma AnswerRoundTrip(count: nat, domain: nat, bus: nat, dev: nat, func: nat, rsrc: nat, more: string)
    requires count < 0x8000_0000 && domain < 0x1_0000_0000 && bus < 0x100 && dev < 0x100 && func < 0x100
    requires rsrc < 4 && (more == [] || more[0] == ',')
    ensures var p := Parse(Answer(count, SlotText(domain, bus, dev, func), rsrc, more), true);
            && p.slot == Slot(Some(domain), Some(bus), Some(dev), Some(func)) && p.rsrc == rsrc && p.count.Some?
            && (p.count == Some(count) <==> count < 1_000_000_000)
    ensures var p := Parse(Answer(count, SlotText(domain, bus, dev, func), rsrc, more), false);
            p.slot == NO_SLOT && p.rsrc == rsrc
  {
    hide Strtok, Strtoul, Padded, Digits, CountField, SlotField, RsrcField;
    var head := "count:" + Digits(count, false);
    var slot := SlotText(domain, bus, dev, func);
    var tail := "decodes=" + RsrcToStr(rsrc) + more;
    assert Answer(count, slot, rsrc, more) == head + [','] + (slot + [','] + tail);
    NoDelimiter(Digits(count, false), false);
    NoComma(domain, bus, dev, func);
    FirstToken(head, ',', slot + [','] + tail);
    FirstToken(slot, ',', tail);
    CountRoundTrip(count);
    SlotRoundTrip(domain, bus, dev, func);
    RsrcRoundTrip(rsrc, more);
  }

  // ----- answers cut short -----

  /** A slot that ends early gives the fields it has. */
  lemma SlotCutShort(domain: nat, bus: nat, dev: nat)
    requires domain < 0x1_0000_0000 && bus < 0x100 && dev < 0x100
    ensures SlotField("") == SlotField("PCI") == Slot(None, None, None, None)
    ensures SlotField("PCI:" + Padded(domain, 4)) == Slot(Some(domain), None, None, None)
    ensures SlotField("PCI:" + Padded(domain, 4) + ":" + Padded(bus, 2)) == Slot(Some(domain), Some(bus), None, None)
    ensures SlotField("PCI:" + Padded(domain, 4) + ":" + Padded(bus, 2) + ":" + Padded(dev, 2))
         == Slot(Some(domain), Some(bus), Some(dev), None)
  {
    hide Strtok, Strtoul, Padded, Digits, Power;
    var a, b, c := Padded(domain, 4), Padded(bus, 2), Padded(dev, 2);
    PowersOfSixteen();
    PaddedLength(domain, 4, 8); PaddedLength(bus, 2, 2); PaddedLength(dev, 2, 2);
    NoDelimiter(a, true); NoDelimiter(b, true); NoDelimiter(c, true);
    HexConverts(domain, 4); HexConverts(bus, 2); HexConverts(dev, 2);
    NoTokenIn(':');
    NoTokenIn('.');
    LastToken("PCI", ':');
    LastToken(a, ':'); LastToken(b, ':'); LastToken(c, '.');
    FirstToken("PCI", ':', a);
    assert "PCI:" + a == "PCI" + [':'] + a;
    FirstToken("PCI", ':', a + [':'] + b);
    FirstToken(a, ':', b);
    assert "PCI:" + a + ":" + b == "PCI" + [':'] + (a + [':'] + b);
    FirstToken("PCI", ':', a + [':'] + (b + [':'] + c));
    FirstToken(a, ':', b + [':'] + c);
    FirstToken(b, ':', c);
    assert "PCI:" + a + ":" + b + ":" + c == "PCI" + [':'] + (a + [':'] + (b + [':'] + c));
  }

  lemma NoTokenIn(d: char)
    ensures Strtok("", d) == NoToken
  {}

  /** Of a long slot the first 31 characters count. */
  lemma LongSlotCut(text: string)
    requires |text| > 31
    ensures SlotField(text) == SlotField(text[..31])
  {
    hide Strtok, Strtoul;
    assert Take(text, 31) == text[..31] == Take(text[..31], 31);
  }

  /** An answer that ends early, or whose slot does, has no resources; the count before it is stored. */
  lemma AnswerCutShort(count: nat, domain: nat, bus: nat, dev: nat, func: nat, tail: string, withSlot: bool)
    requires count < 1_000_000_000 && domain < 0x1_0000_0000 && bus < 0x100 && dev < 0x100 && func < 0x100
    ensures Parse("", withSlot) == Parse("count", withSlot) == Parsed(None, Slot(None, None, None, None), 0)
    ensures Parse("count:" + Digits(count, false), withSlot) == Parsed(Some(count), Slot(None, None, None, None), 0)
    ensures Parse("count:" + Digits(count, false) + "," + SlotText(domain, bus, dev, func), true)
         == Parsed(Some(count), Slot(Some(domain), Some(bus), Some(dev), Some(func)), 0)
    ensures var slot := "PCI:" + Padded(domain, 4) + ":" + Padded(bus, 2) + ":" + Padded(dev, 2);
            Parse("count:" + Digits(count, false) + "," + slot + "," + tail, true)
            == Parsed(Some(count), Slot(Some(domain), Some(bus), Some(dev), None), 0)
  {
    hide Strtok, Strtoul, Padded, Digits, CountField, SlotField;
    var head := "count:" + Digits(count, false);
    var slot := SlotText(domain, bus, dev, func);
    var part := "PCI:" + Padded(domain, 4) + ":" + Padded(bus, 2) + ":" + Padded(dev, 2);
    NoDelimiter(Digits(count, false), false);
    NoComma(domain, bus, dev, func);
    NoDelimiter(Padded(domain, 4), true); NoDelimiter(Padded(bus, 2), true); NoDelimiter(Padded(dev, 2), true);
    NoTokenIn(',');
    LastToken("count", ',');
    NoCount();
    LastToken(head, ',');
    CountRoundTrip(count);
    FirstToken(head, ',', slot);
    assert head + "," + slot == head + [','] + slot;
    LastToken(slot, ',');
    SlotRoundTrip(domain, bus, dev, func);
    FirstToken(head, ',', part + [','] + tail);
    assert head + "," + part + "," + tail == head + [','] + (part + [','] + tail);
    FirstToken(part, ',', tail);
    SlotCutShort(domain, bus, dev);
  }

  lemma NoCount()
    ensures CountField("count") == None
  {
    hide Strtok;
    LastToken("count", ':');
    NoTokenIn(':');
  }

  /** The texts themselves. */
  lemma TextExamples()
    ensures SlotText(0, 0x1a, 2, 3) == "PCI:" + "0000" + ":" + "1a" + ":" + "02" + "." + "3"
    ensures SlotText(0xbcdef, 0x45, 0x9f, 7) == "PCI:" + "bcdef" + ":" + "45" + ":" + "9f" + "." + "7"
    ensures forall slot, more :: Answer(16, slot, 1, more) == "count:" + "16" + "," + slot + "," + "decodes=" + "io" + more
    ensures RsrcToStr(0) == "none" && RsrcToStr(2) == "mem" && RsrcToStr(3) == "io+mem"
  {
    PaddedExamples();
    LongExamples();
    hide Padded, Digits;
  }

  lemma PaddedExamples()
    ensures Padded(0, 4) == "0000" && Padded(0x1a, 2) == "1a" && Padded(2, 2) == "02" && Padded(3, 1) == "3"
    ensures Digits(16, false) == "16"
  {
    TwoDigits(0x1, 0xa, true);
    TwoDigits(1, 6, false);
    assert Zeros(1) == "0" && Zeros(3) == "000" by { assert Zeros(2) == "00"; }
    assert Digits(0, true) == "0" && Digits(2, true) == "2" && Digits(3, true) == "3";
  }

  lemma LongExamples()
    ensures Padded(0xbcdef, 4) == "bcdef" && Padded(0x45, 2) == "45" && Padded(0x9f, 2) == "9f" && Padded(7, 1) == "7"
  {
    TwoDigits(0x4, 0x5, true);
    TwoDigits(0x9, 0xf, true);
    TwoDigits(0xb, 0xc, true);
    OneMoreDigit(0xbc, 0xd);
    OneMoreDigit(0xbcd, 0xe);
    OneMoreDigit(0xbcde, 0xf);
    assert Digits(7, true) == "7";
    hide Digits;
  }

  lemma OneMoreDigit(n: nat, d: nat)
    requires 0 < n && d < 16
    ensures Digits(16 * n + d, true) == Digits(n, true) + [DigitChar(d)]
  {
    assert (16 * n + d) / 16 == n && (16 * n + d) % 16 == d;
  }

  lemma TwoDigits(a: nat, b: nat, hex: bool)
    requires 0 < a < (if hex then 16 else 10) && b < (if hex then 16 else 10)
    ensures Digits(if hex then 16 * a + b else 10 * a + b, hex) == [DigitChar(a), DigitChar(b)]
  {
    hide Digits, DigitChar;
    var n := if hex then 16 * a + b else 10 * a + b;
    if hex {
      assert n / 16 == a && n % 16 == b;
    } else {
      assert n / 10 == a && n % 10 == b;
    }
    OneDigit(a, hex);
    LastDigit(n, a, b, hex);
  }

  lemma OneDigit(a: nat, hex: bool)
    requires a < if hex then 16 else 10
    ensures Digits(a, hex) == [DigitChar(a)]
  {}

  lemma LastDigit(n: nat, front: nat, last: nat, hex: bool)
    requires n >= (if hex then 16 else 10) && last < 16
    requires front == (if hex then n / 16 else n / 10) && last == if hex then n % 16 else n % 10
    ensures Digits(n, hex) == Digits(front, hex) + [DigitChar(last)]
  {}

  lemma NoComma(domain: nat, bus: nat, dev: nat, func: nat)
    ensures ',' !in SlotText(domain, bus, dev, func)
  {
    NoDelimiter(Padded(domain, 4), true);
    NoDelimiter(Padded(bus, 2), true);
    NoDelimiter(Padded(dev, 2), true);
    NoDelimiter(Padded(func, 1), true);
  }
}
