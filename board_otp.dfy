/**
 * The board identification line of checkboard: the BSEC OTP word BSEC_OTP_BOARD
 * is split into a board number (bits 31..16), a variant (bits 15..12), a
 * revision (bits 11..8, printed as a letter) and a fabrication number
 * (bits 3..0). Bits 7..4 are not shown.
 */
module BoardOtp {
  import opened Wrappers

  type Word = bv32

  /** The fields printed as "Board: MB%04x Var%d Rev.%c-%02d"; revision is the raw field behind %c. */
  datatype Label = Label(board: Word, variant: Word, revision: Word, fab: Word)

  /** The bits of the OTP word that reach the printed line. */
  const SHOWN_BITS: Word := 0xFFFF_FF0F

  /** A label the OTP word can produce. */
  predicate WellFormed(l: Label) {
    l.board < 0x1_0000 && l.variant < 16 && l.revision < 16 && l.fab < 16
  }

  /** The decode of the printf arguments. */
  function Decode(otp: Word): (l: Label)
    ensures WellFormed(l)
  {
    Label(otp >> 16, (otp >> 12) & 0xF, (otp >> 8) & 0xF, otp & 0xF)
  }

  /** The OTP word (with bits 7..4 clear) that gives a label. */
  function Encode(l: Label): Word
    requires WellFormed(l)
  {
    (l.board << 16) | (l.variant << 12) | (l.revision << 8) | l.fab
  }

  /**
   * The revision letter: field - 1 + 'A' in u32 arithmetic, printed through %c
   * (which keeps the low byte), so field 1 is 'A' and field 0 wraps to '@'.
   */
  function RevisionLetter(field: Word): (c: char)
    requires field < 16
    ensures field == 0 <==> c == '@'
    ensures field != 0 ==> 'A' <= c <= 'O'
  {
    var code := (field - 1 + 0x41) & 0xFF;
    (code as int) as char
  }

  /** The field value a revision letter comes from. */
  function RevisionField(c: char): (field: Word)
    requires '@' <= c <= 'O'
    ensures field < 16
  {
    (c as int - '@' as int) as Word
  }

  /**
   * checkboard prints the line only when the BSEC device was found (the lookup
   * returns 0 or a negative error code), misc_read then returned a positive
   * byte count, and the word is not zero.
   */
  function BoardLine(lookupRet: int, readRet: int, otp: Word): (r: Option<Label>)
    requires lookupRet <= 0
    ensures r.Some? <==> lookupRet == 0 && readRet > 0 && otp != 0
    ensures r.Some? ==> r.value == Decode(otp)
  {
    var ret := if lookupRet == 0 then readRet else lookupRet;
    if ret > 0 && otp != 0 then Some(Decode(otp)) else None
  }

  /** Distinct revision fields print as distinct letters: RevisionField undoes RevisionLetter. */
  lemma RevisionRoundTrip(field: Word)
    requires field < 16
    ensures RevisionField(RevisionLetter(field)) == field
  {
  }

  lemma LetterRoundTrip(c: char)
    requires '@' <= c <= 'O'
    ensures RevisionLetter(RevisionField(c)) == c
  {
  }

  /** Decoding an encoded label gives it back. */
  lemma DecodeEncode(l: Label)
    requires WellFormed(l)
    ensures Decode(Encode(l)) == l
  {
  }

  /** Encoding a decoded word recovers every bit that is shown, so two words with the same line differ only in bits 7..4. */
  lemma EncodeDecode(otp: Word)
    ensures Encode(Decode(otp)) == otp & SHOWN_BITS
  {
  }
}
