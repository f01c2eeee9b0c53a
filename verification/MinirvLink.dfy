/** A memory layout as a linker makes it: the tables in read-only memory, the scratch array and the stack
    in RAM. It meets everything the macros ask of their surroundings. */
module MinirvLink {
  import opened Bits
  import opened MinirvMachine
  import opened MinirvTables
  import opened MinirvMacros
  import opened MinirvShifts
  import opened MinirvEffects

  const LUT: Word := 0x1_0000
  const SMALL: Word := 0x8_0000
  const RAM: Word := 0x10_0000
  const RAM_END: Word := 0x20_0000

  /** The small tables one behind the other: 256 bytes for the zero test, then eight bytes each. */
  function SmallByte(n: int): Byte {
    if n < 0 then 0
    else if n < 256 then NonZero(n)
    else if n < 264 then SAME_RESULT[n - 256]
    else if n < 272 then SLT1[n - 264]
    else if n < 280 then SLTU1[n - 272]
    else if n < 284 then OR1[n - 280]
    else 0
  }

  function ImageByte(file: seq<Byte>, a: int): Byte {
    if LUT <= a < LUT + |file| then file[a - LUT] else SmallByte(a - SMALL)
  }

  function RomOf(file: seq<Byte>): map<int, Cell> {
    map k | 0 <= k < RAM / 4 :: Cell(ImageByte(file, 4 * k), ImageByte(file, 4 * k + 1), ImageByte(file, 4 * k + 2), ImageByte(file, 4 * k + 3))
  }

  function Cleared(k: int): Cell {
    ZERO
  }

  function RamOf(): map<int, Cell> {
    map k | RAM / 4 <= k < RAM_END / 4 :: Cleared(k)
  }

  function Linked(file: seq<Byte>): Env {
    Env(RomOf(file), RamOf().Keys, file, LUT, SMALL + 256, SMALL, SMALL + 264, SMALL + 272, SMALL + 280, RAM)
  }

  lemma RomHolds(file: seq<Byte>, a: nat)
    requires a < RAM
    ensures RomByte(Linked(file), a, ImageByte(file, a))
  {
    assert a == 4 * (a / 4) + a % 4;
  }

  lemma TableHolds(file: seq<Byte>, at: Word, bytes: seq<Byte>)
    requires at + |bytes| <= RAM && forall n | 0 <= n < |bytes| :: ImageByte(file, at + n) == bytes[n]
    ensures BytesAt(Linked(file), at, bytes)
  {
    forall n | 0 <= n < |bytes|
      ensures RomByte(Linked(file), at + n, bytes[n])
    {
      RomHolds(file, at + n);
    }
    hide RomByte, ImageByte, Linked;
  }

  lemma LinkedOk(file: seq<Byte>)
    requires LutFile(file) && |file| <= 0x6_0000
    ensures EnvOk(Linked(file))
  {
    var env := Linked(file);
    TableHolds(file, env.lut, file);
    TableHolds(file, env.same, SAME_RESULT);
    TableHolds(file, env.slt1, SLT1);
    TableHolds(file, env.sltu1, SLTU1);
    TableHolds(file, env.or1, OR1);
    forall n: Byte
      ensures RomByte(env, env.zero8 + n, NonZero(n))
    {
      RomHolds(file, env.zero8 + n);
    }
    hide RomByte, LutFile, BytesAt, RomOf, ImageByte;
  }

  /** Any aligned sp in RAM, away from the scratch array, has its seven slots. */
  lemma StackInRam(file: seq<Byte>, sp: Word)
    requires sp % 4 == 0 && RAM + 0x200 <= sp <= RAM_END
    ensures StackOk(Linked(file), sp)
  {
    hide RomOf;
  }

  /** The generated file, linked: the assumptions of the lowering can be met. */
  method Link() returns (env: Env)
    ensures EnvOk(env) && forall sp: Word | sp % 4 == 0 && RAM + 0x200 <= sp <= RAM_END :: StackOk(env, sp)
  {
    hide LutFile;
    var file := GenLut();
    LinkedOk(file);
    env := Linked(file);
    forall sp: Word | sp % 4 == 0 && RAM + 0x200 <= sp <= RAM_END
      ensures StackOk(env, sp)
    {
      StackInRam(file, sp);
    }
  }
}
