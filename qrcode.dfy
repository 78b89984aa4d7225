/**
 * The QR Code bitstream builder: an object that holds the text to encode,
 * its mode and the symbol version, and accumulates the bitstream as an
 * append-only list of digit-string pieces.
 */
module QrCode {
  import opened Wrappers
  import opened Binary
  import opened Tables

  /** Width of the character-count indicator for alphanumeric mode at versions 1 to 9. */
  const CountWidth: nat := 9

  /**
   * The character-count field `character_count` writes for `count` characters:
   * the binary form of `count`, left-padded with zeros to `CountWidth` digits
   * (a count too large for 9 digits keeps all its digits).
   */
  function CountIndicator(count: nat): (r: string)
    ensures IsBitString(r)
    ensures |r| == if BitLength(count) < CountWidth then CountWidth else BitLength(count)
    ensures ParseBinary(r) == count
    ensures count < 512 <==> |r| == CountWidth
  {
    PadLeftParse(ToBinary(count), CountWidth);
    ParseToBinary(count);
    BitLengthAtMost(count, CountWidth);
    assert Pow2(CountWidth) == 512;
    PadLeft(ToBinary(count), CountWidth)
  }

  class QRCode {
    var version: int
    var data: string
    /** The bitstream built so far, one entry per appended field (`None` where a lookup missed). */
    var pieces: seq<Option<string>>
    var mode: string

    /** Every piece written so far is absent (an unknown mode) or a digit string. */
    ghost predicate Valid()
      reads this
    {
      forall i :: 0 <= i < |pieces| ==> pieces[i].Some? ==> IsBitString(pieces[i].value)
    }

    constructor (data: string, mode: string, version: int)
      ensures this.data == data && this.mode == mode && this.version == version
      ensures pieces == []
      ensures Valid()
    {
      this.version := version;
      this.data := data;
      this.pieces := [];
      this.mode := mode;
    }

    /** `set_mode`: appends the mode indicator of the current mode (nothing found: `None`). */
    method SetMode()
      requires Valid()
      modifies this`pieces
      ensures Valid()
      ensures pieces == old(pieces) + [ModeIndicator(mode)]
      ensures mode in ModeIndicatorTable ==> pieces[|pieces| - 1] == Some(ModeIndicatorTable[mode])
      ensures mode !in ModeIndicatorTable ==> pieces[|pieces| - 1] == None
    {
      pieces := pieces + [ModeIndicator(mode)];
    }

    /**
     * `character_count`: for alphanumeric mode at versions 1 to 9, appends the
     * character count of the data as a zero-padded binary field; otherwise
     * leaves the bitstream as it was.
     */
    method CharacterCount()
      requires Valid()
      modifies this`pieces
      ensures Valid()
      ensures 1 <= version <= 9 && mode == "Alphanumeric" ==>
        pieces == old(pieces) + [Some(CountIndicator(|data|))]
      ensures !(1 <= version <= 9 && mode == "Alphanumeric") ==> pieces == old(pieces)
    {
      if version >= 1 && version <= 9 {
        if mode == "Alphanumeric" {
          var bin := ToBinary(|data|);
          pieces := pieces + [Some(PadLeft(bin, CountWidth))];
        }
      }
    }

    /**
     * `alpha_conversion`: in alphanumeric mode, walks the data two characters
     * at a time without encoding anything; no field of the object changes.
     */
    method AlphaConversion()
      ensures unchanged(this)
    {
      if mode != "Alphanumeric" {
        return;
      }
      var i := 0;
      while i < |data|
      {
        i := i + 2;
      }
    }
  }

  /**
   * The demonstration sequence: build an encoder for "HELLO" in alphanumeric
   * mode at version 1, write the mode indicator, then the character count.
   */
  method Demo() returns (bitstream: seq<Option<string>>)
    ensures bitstream == [Some("0010"), Some("000000101")]
  {
    var qr := new QRCode("HELLO", "Alphanumeric", 1);
    qr.SetMode();
    qr.CharacterCount();
    assert ModeIndicator("Alphanumeric") == Some("0010");
    assert |"HELLO"| == 5;
    assert ToBinary(5) == "101";
    assert Zeros(6) == "000000";
    assert CountIndicator(5) == "000000101";
    bitstream := qr.pieces;
  }
}
