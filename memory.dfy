/**
 * Protected RAM (src/ram.c, include/ram.h): a flat array of RAM_SIZE bytes
 * whose low range 0..RAM_PRIVILEGED_MODE_END (both ends included) may only be
 * touched by a privileged caller. Privilege is given per access; the memory
 * itself records none.
 */
module Memory {
  import opened Isa
  import opened Results

  const RAM_SIZE := 65536
  const RAM_PRIVILEGED_MODE_START := 0
  const RAM_PRIVILEGED_MODE_END := 8192

  /**
   * `is_address_valid`: an address past the end is refused whatever the
   * privilege; an address up to and including RAM_PRIVILEGED_MODE_END is
   * refused to an unprivileged caller; everything else is accepted.
   */
  function IsAddressValid(address: nat, privileged: bool): (valid: bool)
    ensures valid ==> address < RAM_SIZE
    ensures valid && !privileged ==> RAM_PRIVILEGED_MODE_END < address
    ensures privileged && address < RAM_SIZE ==> valid
  {
    if address >= RAM_SIZE then false
    else if address <= RAM_PRIVILEGED_MODE_END && !privileged then false
    else true
  }

  /** What `ram_read` hands back, on the contents `mem`. */
  function ReadCell(mem: seq<Byte>, address: nat, privileged: bool): (r: Option<Byte>)
    requires |mem| == RAM_SIZE
    ensures r.Some? <==> IsAddressValid(address, privileged)
    ensures r.Some? ==> r.value == mem[address]
  {
    if IsAddressValid(address, privileged) then Some(mem[address]) else None
  }

  /** The contents after `ram_write`, or None when the write is refused. */
  function WriteCell(mem: seq<Byte>, address: nat, value: Byte, privileged: bool): (r: Option<seq<Byte>>)
    requires |mem| == RAM_SIZE
    ensures r.Some? <==> IsAddressValid(address, privileged)
    ensures r.Some? ==> |r.value| == RAM_SIZE && r.value[address] == value
    ensures r.Some? ==> forall a :: 0 <= a < RAM_SIZE && a != address ==> r.value[a] == mem[a]
  {
    if IsAddressValid(address, privileged) then Some(mem[address := value]) else None
  }

  /** `bytes` sit in `mem` from `pc` on, wrapping at the end of the address space. */
  ghost predicate Holds(mem: seq<Byte>, pc: Word, bytes: seq<Byte>)
    requires |mem| == RAM_SIZE
  {
    forall j :: 0 <= j < |bytes| ==> mem[Next(pc, j)] == bytes[j]
  }

  /** Two runs of bytes sitting one after the other from `pc` on. */
  lemma HoldsSplit(mem: seq<Byte>, pc: Word, a: seq<Byte>, b: seq<Byte>)
    requires |mem| == RAM_SIZE && Holds(mem, pc, a + b)
    ensures Holds(mem, pc, a) && Holds(mem, Next(pc, |a|), b)
  {
    forall j | 0 <= j < |a|
      ensures mem[Next(pc, j)] == a[j]
    {
      assert (a + b)[j] == a[j];
    }
    forall j | 0 <= j < |b|
      ensures mem[Next(Next(pc, |a|), j)] == b[j]
    {
      NextNext(pc, |a|, j);
      assert (a + b)[|a| + j] == b[j];
    }
  }

  /** The `Ram` record: one fixed buffer of RAM_SIZE cells. */
  class Ram {
    const cells: array<Byte>

    ghost predicate Valid()
      reads this
    {
      cells.Length == RAM_SIZE
    }

    /** A `Ram` as declared, before `ram_init`: its cells hold anything. */
    constructor ()
      ensures Valid() && fresh(cells)
    {
      cells := new Byte[RAM_SIZE];
    }

    /** `ram_init`: every cell becomes zero. */
    method Init()
      requires Valid()
      modifies cells
      ensures forall a :: 0 <= a < RAM_SIZE ==> cells[a] == 0
    {
      forall a | 0 <= a < cells.Length {
        cells[a] := 0;
      }
    }

    /**
     * `ram_read`: on success `value` is the cell; on failure it is `output`,
     * the caller's variable left as it was.
     */
    method Read(address: nat, privileged: bool, output: Byte) returns (ok: bool, value: Byte)
      requires Valid()
      ensures ok == IsAddressValid(address, privileged)
      ensures ok ==> value == cells[address]
      ensures !ok ==> value == output
    {
      if !IsAddressValid(address, privileged) {
        return false, output;
      }
      value := cells[address];
      ok := true;
    }

    /** `ram_write`: on success exactly the one cell changes; on failure nothing. */
    method Write(address: nat, value: Byte, privileged: bool) returns (ok: bool)
      requires Valid()
      modifies cells
      ensures ok == IsAddressValid(address, privileged)
      ensures ok ==> cells[..] == old(cells[..])[address := value]
      ensures !ok ==> cells[..] == old(cells[..])
    {
      if !IsAddressValid(address, privileged) {
        return false;
      }
      cells[address] := value;
      ok := true;
    }
  }

  /** Past the end, every access is refused, privileged or not. */
  lemma OutOfBoundsRefused(address: nat, privileged: bool)
    requires address >= RAM_SIZE
    ensures !IsAddressValid(address, privileged)
  {
  }

  /** An unprivileged caller reaches exactly the addresses 8193..65535. */
  lemma UnprivilegedRange(address: nat)
    ensures IsAddressValid(address, false) <==> RAM_PRIVILEGED_MODE_END < address < RAM_SIZE
  {
  }

  /** A privileged caller reaches every address below RAM_SIZE. */
  lemma PrivilegedRange(address: nat)
    ensures IsAddressValid(address, true) <==> address < RAM_SIZE
  {
  }

  /**
   * Reading back, in the same privilege mode, the address just written
   * successfully returns the written value.
   */
  lemma ReadAfterWrite(mem: seq<Byte>, address: nat, value: Byte, privileged: bool)
    requires |mem| == RAM_SIZE
    requires WriteCell(mem, address, value, privileged).Some?
    ensures ReadCell(WriteCell(mem, address, value, privileged).value, address, privileged) == Some(value)
  {
  }
}
