/** The eight fixed bitmap slots and the sectors that cover them. */
module Theme {
  import opened Bytes

  const BACKGROUND_BYTES: nat := 320 * 170 * 2
  const FAN_FRAME_BYTES: nat := 73 * 73 * 2

  const SPI_FLASH_SIZE: nat := 0x0100_0000
  const SPI_SECTOR_SIZE: nat := 4096
  const SPI_WRITE_PAGE_SIZE: nat := 256

  datatype ThemeAssetSlot =
    | BackgroundOrange
    | BackgroundDark
    | FanOrange1
    | FanOrange2
    | FanDark1
    | FanDark2
    | FanBlackWhite1
    | FanBlackWhite2
  {
    function Address(): nat {
      match this
      case BackgroundOrange => 0x0000_3000
      case BackgroundDark => 0x0001_D900
      case FanOrange1 => 0x0005_6374
      case FanOrange2 => 0x0005_B6BC
      case FanDark1 => 0x0005_8D18
      case FanDark2 => 0x0005_E060
      case FanBlackWhite1 => 0x0006_0A04
      case FanBlackWhite2 => 0x0006_33A8
    }

    function ByteLen(): nat {
      match this
      case BackgroundOrange | BackgroundDark => BACKGROUND_BYTES
      case _ => FAN_FRAME_BYTES
    }

    function End(): nat {
      Address() + ByteLen()
    }

    function SectorStart(): nat {
      Address() / SPI_SECTOR_SIZE * SPI_SECTOR_SIZE
    }

    function SectorEnd(): nat {
      (End() + SPI_SECTOR_SIZE - 1) / SPI_SECTOR_SIZE * SPI_SECTOR_SIZE
    }
  }

  predicate Aligned(x: nat, unit: nat)
    requires unit > 0
  {
    x % unit == 0
  }

  /**
   The covering sectors are whole, contain the slot, stay in the lower half of the flash, and no
   tighter run of whole sectors contains the slot.
   */
  lemma CoveringSectors(slot: ThemeAssetSlot)
    ensures Aligned(slot.SectorStart(), SPI_SECTOR_SIZE) && Aligned(slot.SectorEnd(), SPI_SECTOR_SIZE)
    ensures slot.SectorStart() <= slot.Address() < slot.End() <= slot.SectorEnd()
    ensures slot.Address() - slot.SectorStart() < SPI_SECTOR_SIZE
    ensures slot.SectorEnd() - slot.End() < SPI_SECTOR_SIZE
    ensures slot.SectorEnd() <= SPI_FLASH_SIZE / 2
    ensures Aligned(slot.SectorEnd() - slot.SectorStart(), SPI_SECTOR_SIZE)
  {
    assert slot.End() <= 0x8_0000;
    var e := slot.End() + SPI_SECTOR_SIZE - 1;
    assert e / SPI_SECTOR_SIZE * SPI_SECTOR_SIZE == e - e % SPI_SECTOR_SIZE;
    var a := slot.Address();
    assert a / SPI_SECTOR_SIZE * SPI_SECTOR_SIZE == a - a % SPI_SECTOR_SIZE;
  }

  /** Slots never overlap, although two of them can meet inside one sector. */
  lemma SlotsAreDisjoint(s: ThemeAssetSlot, t: ThemeAssetSlot)
    requires s != t
    ensures s.End() <= t.Address() || t.End() <= s.Address()
  {
  }

  /** The two backgrounds touch in the middle of a sector, so writing either rewrites bytes of the other. */
  lemma BackgroundsShareASector()
    ensures BackgroundOrange.End() == BackgroundDark.Address()
    ensures BackgroundDark.SectorStart() < BackgroundOrange.End() < BackgroundOrange.SectorEnd()
  {
    CoveringSectors(BackgroundDark);
    CoveringSectors(BackgroundOrange);
    assert BackgroundOrange.End() == 0x1D900;
  }
}
