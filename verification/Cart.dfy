/** Cartridge bank switching: page pointers set by windows of several sizes give modular addressing into the chips. */
module Cart {
  import opened Bits

  type Byte = x: int | 0 <= x < 0x100

  /** `p - A` for a pointer `p` into a chip: reading address `A` of the page reads byte `base + A` of it.
      `Nothing` is the empty page that is mapped before any chip is. */
  datatype Pointer = Null | Nothing | Into(chip: nat, base: int)

  /** The call that mapped a page last: window of `size` bytes at address `at`, showing bank `bank` of the chip. */
  datatype Window = NoWindow | Window(chip: nat, at: nat, size: nat, bank: nat)

  ghost predicate PowerOfTwo(n: nat) {
    exists k: nat :: k <= 32 && n == Pow2(k)
  }

  // ---------- modular addressing ----------

  /** The byte of the chip that modular addressing gives for an address in the window. */
  function Wanted(w: Window, chipSize: nat, address: int): int
    requires w.Window? && chipSize > 0
  {
    (w.bank * w.size + (address - w.at)) % chipSize
  }

  /** Banks of a window that divides the chip are taken modulo their number. */
  lemma WholeBank(bank: nat, window: nat, count: nat, chipSize: nat, d: nat)
    requires window > 0 && count > 0 && chipSize == count * window && d < window
    ensures (bank * window + d) % chipSize == bank % count * window + d
  {
    var q, r := bank / count, bank % count;
    assert bank == q * count + r;
    TimesSum(q * count, r, window);
    TimesProduct(q, count, window);
    TimesSum(r, 1, window);
    TimesSum(r + 1, count - r - 1, window);
    NotNegative(r, window);
    NotNegative(count - r - 1, window);
    DivUnique(bank * window + d, chipSize, q, r * window + d);
  }

  /** Masking with one less than a power of two. */
  lemma MaskIs(v: U32, count: nat)
    requires PowerOfTwo(count)
    ensures count > 0 && And32(v, count - 1) == v % count
  {
    hide Bitwise, Pow2;
    var k: nat :| k <= 32 && count == Pow2(k);
    AndLowMask(32, k, v);
  }

  /** A power of two at least as large as another is a power of two times it. */
  lemma PowerQuotient(n: nat, m: nat)
    requires PowerOfTwo(n) && PowerOfTwo(m) && m <= n
    ensures m > 0 && n % m == 0 && n == n / m * m && PowerOfTwo(n / m)
  {
    hide Pow2;
    var j: nat :| j <= 32 && n == Pow2(j);
    var k: nat :| k <= 32 && m == Pow2(k);
    if k <= j {
      Pow2Add(j - k, k);
      DivUnique(n, m, Pow2(j - k), 0);
    } else {
      Pow2Monotone(j, k);
    }
  }

  lemma ModMod(a: int, m: int, q: int, k: int)
    requires q > 0 && k > 0 && m == k * q
    ensures m > 0 && a % m % q == a % q
  {
    NotNegative(k - 1, q);
    TimesSum(1, k - 1, q);
    TimesProduct(a / m, k, q);
    assert a == a / m * m + a % m;
    DivAddMultiple(a % m, q, a / m * k);
  }

  /** In a small chip each 2K page of a window is taken modulo the number of 2K pages. */
  lemma SmallBank(bank: U32, pages: nat, x: nat, count: nat)
    requires 0 < pages <= 16 && x < pages && PowerOfTwo(count)
    ensures count > 0 && (bank * pages % 0x1_0000_0000 + x) % 0x1_0000_0000 % count * 0x800
         == (bank * (pages * 0x800) + x * 0x800) % (count * 0x800)
  {
    hide Pow2;
    var j: nat :| j <= 32 && count == Pow2(j);
    Pow2Values();
    Pow2Add(32 - j, j);
    var a, m: int := bank * pages, 0x1_0000_0000;
    assert (a % m + x) % m == (a + x) % m by {
      assert a == a / m * m + a % m;
      DivAddMultiple(a % m + x, m, a / m);
    }
    ModMod(a + x, m, count, Pow2(32 - j));
    MulMod(a + x, 0x800, count);
    TimesProduct(bank, pages, 0x800);
    TimesSum(a, x, 0x800);
    TimesCommutes(count, 0x800);
  }

  // ---------- program pages ----------

  /** The page pointer shows, at every address of page `x` of `unit` bytes, the byte that modular addressing wants. */
  ghost predicate PageShows(p: Pointer, w: Window, memory: seq<seq<Byte>>, x: nat, unit: nat) {
    match w
    case NoWindow => p.Nothing?
    case Window(chip, at, size, bank) =>
      && chip < |memory|
      && (if memory[chip] == [] then p.Null?
          else p.Into? && p.chip == chip
               && forall a | unit * x <= a < unit * x + unit :: p.base + a == Wanted(w, |memory[chip]|, a))
  }

  class PrgMap {
    /** The chips; an empty one is not there. */
    var memory: seq<seq<Byte>>
    /** PRGram: the chip can be written. */
    const writable: seq<bool>
    const page: array<Pointer>
    const isRam: array<bool>
    /** What was mapped last at each page. */
    ghost var mapped: seq<Window>

    ghost predicate Chips()
      reads this
    {
      && |writable| == |memory| && page.Length == isRam.Length == |mapped| == 32
      && forall r | 0 <= r < |memory| && memory[r] != [] :: 0x800 <= |memory[r]| < 0x1_0000_0000 && PowerOfTwo(|memory[r]|)
    }

    ghost predicate Valid()
      reads this, page, isRam
    {
      && Chips()
      && forall x | 0 <= x < 32 ::
           && PageShows(page[x], mapped[x], memory, x, 0x800)
           && isRam[x] == (mapped[x].Window? && memory[mapped[x].chip] != [] && writable[mapped[x].chip])
    }

    constructor (memory: seq<seq<Byte>>, writable: seq<bool>)
      requires |writable| == |memory|
      requires forall r | 0 <= r < |memory| && memory[r] != [] :: 0x800 <= |memory[r]| < 0x1_0000_0000 && PowerOfTwo(|memory[r]|)
      ensures Valid() && this.memory == memory && fresh(page) && fresh(isRam) && forall x | 0 <= x < 32 :: mapped[x] == NoWindow
    {
      this.memory, this.writable := memory, writable;
      page := new Pointer[32](_ => Nothing);
      isRam := new bool[32](_ => false);
      mapped := seq(32, _ => NoWindow);
    }

    /** setpageptr: `kib` KiB of pages from address `at` on, from byte `from` of the chip. */
    method SetPagePtr(kib: nat, at: nat, chip: nat, from: int)
      requires Chips() && chip < |memory| && at % 0x800 == 0 && at / 0x800 + kib / 2 <= 32
      modifies page, isRam
      ensures forall x | 0 <= x < 32 ::
                if at / 0x800 <= x < at / 0x800 + kib / 2
                then page[x] == (if memory[chip] == [] then Null else Into(chip, from - at))
                     && isRam[x] == (memory[chip] != [] && writable[chip])
                else page[x] == old(page[x]) && isRam[x] == old(isRam[x])
    {
      var ab := at / 0x800;
      var x := kib / 2 - 1;
      while x >= 0
        invariant -1 <= x < kib / 2
        invariant forall k | 0 <= k < 32 ::
                if ab + x < k < ab + kib / 2
                then page[k] == (if memory[chip] == [] then Null else Into(chip, from - at))
                     && isRam[k] == (memory[chip] != [] && writable[chip])
                else page[k] == old(page[k]) && isRam[k] == old(isRam[k])
      {
        if memory[chip] != [] {
          isRam[ab + x] := writable[chip];
          page[ab + x] := Into(chip, from - at);
        } else {
          isRam[ab + x] := false;
          page[ab + x] := Null;
        }
        x := x - 1;
      }
    }

    /** A window over a chip at least as large, or over none: setprg2r, setprg4r, and the first case of the others. */
    method SetWhole(kib: nat, chip: nat, at: nat, bank: U32)
      requires Valid() && chip < |memory| && kib in {2, 4, 8, 16, 32} && at % 0x800 == 0 && at + kib * 0x400 <= 0x1_0000
      requires memory[chip] != [] ==> |memory[chip]| >= kib * 0x400
      modifies this`mapped, page, isRam
      ensures Valid() && mapped == Mapped(old(mapped), Window(chip, at, kib * 0x400, bank))
    {
      hide PageShows, PowerOfTwo, And32, Wanted;
      ghost var w := Window(chip, at, kib * 0x400, bank);
      assert w.size / 0x800 == kib / 2;
      if memory[chip] == [] {
        SetPagePtr(kib, at, chip, 0);
        AbsentShows(w, memory);
      } else {
        var masked := And32(bank, |memory[chip]| / (kib * 0x400) - 1);
        WholeShows(w, memory, 0x800);
        assert WholePointer(w, memory) == Into(chip, masked * (kib * 0x400) - at);
        SetPagePtr(kib, at, chip, masked * (kib * 0x400));
      }
      mapped := Mapped(mapped, w);
    }

    /** A window over a chip that is smaller, or over none, page by page: the second case of setprg8r and up. */
    method SetSmall(kib: nat, chip: nat, at: nat, bank: U32)
      requires Valid() && chip < |memory| && kib in {8, 16, 32} && at % 0x800 == 0 && at + kib * 0x400 <= 0x1_0000
      modifies this`mapped, page, isRam
      ensures Valid() && mapped == Mapped(old(mapped), Window(chip, at, kib * 0x400, bank))
    {
      hide PageShows, PowerOfTwo, And32, Wanted;
      ghost var w := Window(chip, at, kib * 0x400, bank);
      assert w.size / 0x800 == kib / 2;
      var va := bank * (kib / 2) % 0x1_0000_0000;
      AbsentShows(w, memory);
      SmallShows(w, memory);
      for x := 0 to kib / 2
        invariant mapped == old(mapped)
        invariant forall k | 0 <= k < 32 ::
                if at / 0x800 <= k < at / 0x800 + x
                then PageShows(page[k], w, memory, k, 0x800) && isRam[k] == (memory[chip] != [] && writable[chip])
                else page[k] == old(page[k]) && isRam[k] == old(isRam[k])
      {
        var from := if memory[chip] == [] then 0
                    else And32((va + x) % 0x1_0000_0000, |memory[chip]| / 0x800 - 1) * 0x800;
        PageInside(at, kib, x);
        assert SmallPointer(w, memory, x) == if memory[chip] == [] then Null else Into(chip, from - (at + x * 0x800));
        SetPagePtr(2, at + x * 0x800, chip, from);
      }
      mapped := Mapped(mapped, w);
    }

    /** setprg2r, setprg4r, setprg8r, setprg16r and setprg32r, by the size of the window. The one of 4K has
        no case for chips that are smaller. */
    method SetPrg(kib: nat, chip: nat, at: nat, bank: U32)
      requires Valid() && chip < |memory| && kib in {2, 4, 8, 16, 32} && at % 0x800 == 0 && at + kib * 0x400 <= 0x1_0000
      requires kib == 4 && memory[chip] != [] ==> |memory[chip]| >= 0x1000
      modifies this`mapped, page, isRam
      ensures Valid() && mapped == Mapped(old(mapped), Window(chip, at, kib * 0x400, bank))
    {
      hide PageShows, PowerOfTwo, Wanted;
      if kib <= 4 || |memory[chip]| >= kib * 0x400 {
        SetWhole(kib, chip, at, bank);
      } else {
        SetSmall(kib, chip, at, bank);
      }
    }

    // ---------- reading and writing ----------

    /** CartBR and CartBROB: the byte modular addressing gives in the window mapped last; the data bus
        where that chip is missing. CartBR is only used where none is. */
    method Read(address: nat, bus: Byte) returns (v: Byte)
      requires Valid() && address < 0x1_0000
      ensures v == Seen(mapped[address / 0x800], memory, address, bus)
    {
      hide PowerOfTwo;
      WantedInChip(mapped[address / 0x800], memory, address);
      match page[address / 0x800] {
        case Null => v := bus;
        case Nothing => v := 0;
        case Into(chip, base) => v := memory[chip][base + address];
      }
    }

    /** CartBW: changes that byte of a chip that can be written, and nothing else. */
    method Write(address: nat, v: Byte)
      requires Valid() && address < 0x1_0000
      modifies this`memory
      ensures Valid() && |memory| == |old(memory)|
      ensures var w := mapped[address / 0x800];
              if w.Window? && old(memory)[w.chip] != [] && writable[w.chip]
              then memory == old(memory)[w.chip := WithByte(old(memory)[w.chip], Wanted(w, |old(memory)[w.chip]|, address), v)]
              else memory == old(memory)
    {
      hide PowerOfTwo;
      WantedInChip(mapped[address / 0x800], memory, address);
      if isRam[address / 0x800] && page[address / 0x800] != Null {
        var chip, at := page[address / 0x800].chip, page[address / 0x800].base + address;
        memory := memory[chip := WithByte(memory[chip], at, v)];
      }
    }

    /** Any run of set calls leaves each page showing the window that covered it last. */
    method SetAll(calls: seq<SetCall>)
      requires Valid() && forall k | 0 <= k < |calls| :: CallOk(calls[k], memory)
      modifies this`mapped, page, isRam
      ensures Valid() && mapped == MappedAll(old(mapped), calls)
    {
      hide PowerOfTwo, PageShows, Mapped;
      for i := 0 to |calls|
        invariant Valid() && mapped == MappedAll(old(mapped), calls[..i])
      {
        assert CallOk(calls[i], memory);
        SetPrg(calls[i].kib, calls[i].chip, calls[i].at, calls[i].bank);
        assert calls[..i + 1][..i] == calls[..i];
      }
      assert calls[..|calls|] == calls;
    }
  }

  function WithByte(chip: seq<Byte>, at: int, v: Byte): (c: seq<Byte>)
    ensures |c| == |chip| && forall k | 0 <= k < |chip| :: c[k] == if k == at then v else chip[k]
  {
    seq(|chip|, k requires 0 <= k < |chip| => if k == at then v else chip[k])
  }

  datatype SetCall = SetCall(kib: nat, chip: nat, at: nat, bank: U32)

  predicate CallOk(c: SetCall, memory: seq<seq<Byte>>) {
    && c.chip < |memory| && c.kib in {2, 4, 8, 16, 32} && c.at % 0x800 == 0 && c.at + c.kib * 0x400 <= 0x1_0000
    && (c.kib == 4 && memory[c.chip] != [] ==> |memory[c.chip]| >= 0x1000)
  }

  function MappedAll(mapped: seq<Window>, calls: seq<SetCall>): seq<Window> {
    if calls == [] then mapped
    else
      var c := calls[|calls| - 1];
      Mapped(MappedAll(mapped, calls[..|calls| - 1]), Window(c.chip, c.at, c.kib * 0x400, c.bank))
  }

  /** What a window shows at an address. */
  function Seen(w: Window, memory: seq<seq<Byte>>, address: int, bus: Byte): Byte {
    if w.NoWindow? then 0
    else if w.chip >= |memory| || memory[w.chip] == [] then bus
    else memory[w.chip][Wanted(w, |memory[w.chip]|, address)]
  }

  lemma WantedInChip(w: Window, memory: seq<seq<Byte>>, address: int)
    ensures w.Window? && w.chip < |memory| && memory[w.chip] != [] ==>
              0 <= Wanted(w, |memory[w.chip]|, address) < |memory[w.chip]|
  {
  }

  // ---------- character pages ----------

  class ChrMap {
    const memory: seq<seq<Byte>>
    const writable: seq<bool>
    /** VPageR, and the bits of PPUCHRRAM. */
    const page: array<Pointer>
    const isRam: array<bool>
    ghost var mapped: seq<Window>

    ghost predicate Chips()
      reads this
    {
      && |writable| == |memory| && page.Length == isRam.Length == |mapped| == 8
      && forall r | 0 <= r < |memory| && memory[r] != [] :: PowerOfTwo(|memory[r]|)
    }

    /** Absent chips are never mapped, and each bit belongs to the chip mapped last. */
    ghost predicate Valid()
      reads this, page, isRam
    {
      && Chips()
      && forall x | 0 <= x < 8 ::
           && PageShows(page[x], mapped[x], memory, x, 0x400)
           && (mapped[x].Window? ==> memory[mapped[x].chip] != [])
           && isRam[x] == (mapped[x].Window? && writable[mapped[x].chip])
    }

    constructor (memory: seq<seq<Byte>>, writable: seq<bool>)
      requires |writable| == |memory| && forall r | 0 <= r < |memory| && memory[r] != [] :: PowerOfTwo(|memory[r]|)
      ensures Valid() && this.memory == memory && fresh(page) && fresh(isRam) && forall x | 0 <= x < 8 :: mapped[x] == NoWindow
    {
      this.memory, this.writable := memory, writable;
      page := new Pointer[8](_ => Nothing);
      isRam := new bool[8](_ => false);
      mapped := seq(8, _ => NoWindow);
    }

    method SetPages(first: nat, count: nat, p: Pointer, ram: bool)
      requires Chips() && first + count <= 8
      modifies page, isRam
      ensures forall k | 0 <= k < 8 ::
                if first <= k < first + count then page[k] == p && isRam[k] == ram
                else page[k] == old(page[k]) && isRam[k] == old(isRam[k])
    {
      for x := 0 to count
        invariant forall k | 0 <= k < 8 ::
                    if first <= k < first + x then page[k] == p && isRam[k] == ram
                    else page[k] == old(page[k]) && isRam[k] == old(isRam[k])
      {
        page[first + x] := p;
        isRam[first + x] := ram;
      }
    }

    /** setchr1r, setchr2r, setchr4r and, with address 0, setchr8r, by the size of the window: a missing
        chip leaves everything as it is. */
    method SetChr(kib: nat, chip: nat, at: nat, bank: U32)
      requires Valid() && chip < |memory| && kib in {1, 2, 4, 8} && at % 0x400 == 0 && at + kib * 0x400 <= 0x2000
      requires memory[chip] != [] ==> |memory[chip]| >= kib * 0x400
      modifies this`mapped, page, isRam
      ensures Valid()
      ensures mapped == if memory[chip] == [] then old(mapped)
                        else ChrMapped(old(mapped), Window(chip, at, kib * 0x400, bank))
    {
      if memory[chip] == [] {
        return;
      }
      ghost var w := Window(chip, at, kib * 0x400, bank);
      hide PageShows, PowerOfTwo, And32, Wanted, WholePointer;
      assert w.size / 0x400 == kib;
      var masked := And32(bank, |memory[chip]| / (kib * 0x400) - 1);
      WholeShows(w, memory, 0x400);
      WholePointerIs(w, memory);
      SetPages(at / 0x400, kib, Into(chip, masked * (kib * 0x400) - at), writable[chip]);
      mapped := ChrMapped(mapped, w);
    }

    /** Pattern fetches through VPage. */
    method Read(address: nat) returns (v: Byte)
      requires Valid() && address < 0x2000
      ensures v == Seen(mapped[address / 0x400], memory, address, 0)
    {
      hide PowerOfTwo;
      WantedInChip(mapped[address / 0x400], memory, address);
      match page[address / 0x400] {
        case Into(chip, base) => v := memory[chip][base + address];
        case _ => v := 0;
      }
    }
  }

  function ChrMapped(mapped: seq<Window>, w: Window): (m: seq<Window>)
    requires w.Window?
    ensures |m| == |mapped|
  {
    seq(|mapped|, x requires 0 <= x < |mapped| => if w.at / 0x400 <= x < w.at / 0x400 + w.size / 0x400 then w else mapped[x])
  }

  lemma PageInside(at: nat, kib: nat, x: nat)
    requires at % 0x800 == 0 && at + kib * 0x400 <= 0x1_0000 && x < kib / 2
    ensures (at + x * 0x800) % 0x800 == 0 && (at + x * 0x800) / 0x800 == at / 0x800 + x < 32
  {
    DivAddMultiple(at, 0x800, x);
  }

  /** The pages a window covers now show it. */
  function Mapped(mapped: seq<Window>, w: Window): (m: seq<Window>)
    requires w.Window?
    ensures |m| == |mapped|
  {
    seq(|mapped|, x requires 0 <= x < |mapped| => if w.at / 0x800 <= x < w.at / 0x800 + w.size / 0x800 then w else mapped[x])
  }

  predicate WindowOk(w: Window, memory: seq<seq<Byte>>, unit: nat) {
    && w.Window? && w.chip < |memory| && unit in {0x400, 0x800} && w.at % unit == 0 && w.size % unit == 0
    && w.size in {0x400, 0x800, 0x1000, 0x2000, 0x4000, 0x8000} && w.bank < 0x1_0000_0000
  }

  lemma AbsentShows(w: Window, memory: seq<seq<Byte>>)
    requires WindowOk(w, memory, 0x800)
    ensures memory[w.chip] == [] ==> forall x: nat :: PageShows(Null, w, memory, x, 0x800)
  {
  }

  /** The pointer of a window over a chip at least as large. */
  function WholePointer(w: Window, memory: seq<seq<Byte>>): Pointer
    requires w.Window? && w.size > 0 && w.bank < 0x1_0000_0000 && w.chip < |memory| && |memory[w.chip]| >= w.size
  {
    Into(w.chip, And32(w.bank, |memory[w.chip]| / w.size - 1) * w.size - w.at)
  }

  lemma WholePointerIs(w: Window, memory: seq<seq<Byte>>)
    requires w.Window? && w.size > 0 && w.bank < 0x1_0000_0000 && w.chip < |memory| && |memory[w.chip]| >= w.size
    ensures WholePointer(w, memory) == Into(w.chip, And32(w.bank, |memory[w.chip]| / w.size - 1) * w.size - w.at)
  {
  }

  lemma WholeShows(w: Window, memory: seq<seq<Byte>>, unit: nat)
    requires WindowOk(w, memory, unit) && PowerOfTwo(|memory[w.chip]|) && |memory[w.chip]| >= w.size
    ensures forall x: nat | w.at / unit <= x < w.at / unit + w.size / unit ::
              PageShows(WholePointer(w, memory), w, memory, x, unit)
  {
    hide PowerOfTwo, And32, Wanted;
    var p := WholePointer(w, memory);
    WholeWanted(w, memory);
    forall x: nat | w.at / unit <= x < w.at / unit + w.size / unit
      ensures PageShows(p, w, memory, x, unit)
    {
      PageRange(w.at, w.size, unit, x);
    }
  }

  lemma WholeWanted(w: Window, memory: seq<seq<Byte>>)
    requires w.Window? && w.size in {0x400, 0x800, 0x1000, 0x2000, 0x4000, 0x8000} && w.bank < 0x1_0000_0000
    requires w.chip < |memory| && PowerOfTwo(|memory[w.chip]|) && |memory[w.chip]| >= w.size
    ensures forall a | w.at <= a < w.at + w.size :: WholePointer(w, memory).base + a == Wanted(w, |memory[w.chip]|, a)
  {
    hide PowerOfTwo, And32;
    var n := |memory[w.chip]|;
    WindowSizes(w.size);
    PowerQuotient(n, w.size);
    MaskIs(w.bank, n / w.size);
    forall a | w.at <= a < w.at + w.size
      ensures WholePointer(w, memory).base + a == Wanted(w, n, a)
    {
      WholeBank(w.bank, w.size, n / w.size, n, a - w.at);
    }
  }

  lemma PageRange(at: nat, size: nat, unit: nat, x: nat)
    requires unit in {0x400, 0x800} && at % unit == 0 && size % unit == 0 && at / unit <= x < at / unit + size / unit
    ensures at <= unit * x && unit * x + unit <= at + size
  {
    if unit == 0x400 {
    } else {
      assert unit == 0x800;
    }
  }

  lemma WindowSizes(n: nat)
    requires n in {0x400, 0x800, 0x1000, 0x2000, 0x4000, 0x8000}
    ensures PowerOfTwo(n)
  {
    Pow2Values();
    Pow2Small();
    hide Pow2;
    Pow2Add(8, 2);
    Pow2Add(10, 1);
    Pow2Add(11, 1);
    Pow2Add(12, 1);
    Pow2Add(13, 1);
    Pow2Add(14, 1);
    assert Pow2(10) == 0x400 && Pow2(11) == 0x800 && Pow2(12) == 0x1000 && Pow2(13) == 0x2000 && Pow2(14) == 0x4000 && Pow2(15) == 0x8000;
  }

  /** The pointer of the `x`th page of a window over a small chip. */
  function SmallPointer(w: Window, memory: seq<seq<Byte>>, x: nat): Pointer
    requires WindowOk(w, memory, 0x800)
  {
    var va := w.bank * (w.size / 0x800) % 0x1_0000_0000;
    if memory[w.chip] == [] then Null
    else Into(w.chip, And32((va + x) % 0x1_0000_0000, |memory[w.chip]| / 0x800 - 1) * 0x800 - (w.at + x * 0x800))
  }

  lemma SmallShows(w: Window, memory: seq<seq<Byte>>)
    requires WindowOk(w, memory, 0x800) && (memory[w.chip] != [] ==> |memory[w.chip]| >= 0x800 && PowerOfTwo(|memory[w.chip]|))
    ensures forall x: nat | x < w.size / 0x800 :: PageShows(SmallPointer(w, memory, x), w, memory, w.at / 0x800 + x, 0x800)
  {
    hide PowerOfTwo, And32;
    var n := |memory[w.chip]|;
    if n > 0 {
      forall x: nat | x < w.size / 0x800
        ensures PageShows(SmallPointer(w, memory, x), w, memory, w.at / 0x800 + x, 0x800)
      {
        SmallPageShows(w, memory, x);
      }
    }
  }

  lemma SmallPageShows(w: Window, memory: seq<seq<Byte>>, x: nat)
    requires WindowOk(w, memory, 0x800) && |memory[w.chip]| >= 0x800 && PowerOfTwo(|memory[w.chip]|) && x < w.size / 0x800
    ensures PageShows(SmallPointer(w, memory, x), w, memory, w.at / 0x800 + x, 0x800)
  {
    hide PowerOfTwo, And32, Wanted;
    var n := |memory[w.chip]|;
    SmallStart(w.bank, w.size / 0x800, x, n);
    var p := SmallPointer(w, memory, x);
    forall a | w.at + 0x800 * x <= a < w.at + 0x800 * x + 0x800
      ensures p.base + a == Wanted(w, n, a)
    {
      SmallWanted(w, n, x, a);
    }
  }

  lemma SmallStart(bank: U32, pages: nat, x: nat, n: nat)
    requires PowerOfTwo(n) && n >= 0x800 && 0 < pages <= 16 && x < pages
    ensures n % 0x800 == 0
    ensures And32((bank * pages % 0x1_0000_0000 + x) % 0x1_0000_0000, n / 0x800 - 1) * 0x800
         == (bank * (pages * 0x800) + x * 0x800) % n
  {
    hide PowerOfTwo, And32;
    WindowSizes(0x800);
    PowerQuotient(n, 0x800);
    MaskIs((bank * pages % 0x1_0000_0000 + x) % 0x1_0000_0000, n / 0x800);
    SmallBank(bank, pages, x, n / 0x800);
  }

  lemma SmallWanted(w: Window, n: nat, x: nat, a: int)
    requires w.Window? && n > 0 && n % 0x800 == 0 && w.size % 0x800 == 0
    requires w.at + 0x800 * x <= a < w.at + 0x800 * x + 0x800
    ensures Wanted(w, n, a) == (w.bank * (w.size / 0x800 * 0x800) + x * 0x800) % n + (a - (w.at + 0x800 * x))
  {
    assert w.size / 0x800 * 0x800 == w.size;
    var start := w.bank * w.size;
    TimesProduct(w.bank, w.size / 0x800, 0x800);
    DivAddMultiple(0, 0x800, w.bank * (w.size / 0x800) + x);
    NotNegative(w.bank, w.size);
    InPage(start + x * 0x800, n, a - (w.at + 0x800 * x));
  }

  /** Inside a 2K page, addresses follow one another also modulo the chip. */
  lemma InPage(start: nat, n: nat, d: nat)
    requires n > 0 && n % 0x800 == 0 && start % 0x800 == 0 && d < 0x800
    ensures (start + d) % n == start % n + d
  {
    var q, r := start / n, start % n;
    assert start == q * n + r;
    assert r % 0x800 == 0 by {
      TimesProduct(q, n / 0x800, 0x800);
      DivAddMultiple(r, 0x800, q * (n / 0x800));
    }
    DivUnique(start + d, n, q, r + d);
  }
}
