/** CleanResponseCode: what is left of a TPM response code without its error location. */
module ResponseCodes {
  const RC_VER1: bv32 := 0x100
  const RC_FMT1: bv32 := 0x80
  const RC_WARN: bv32 := 0x900
  const TPM_RC_NOT_USED: bv32 := RC_WARN + 0x7F
  const TPM_RC_P: bv32 := 0x40
  const TPM_RC_S: bv32 := 0x800

  predicate IsCommMediumError(code: bv32) {
    code & 0xFFFF_0000 == 0x8028_0000
  }

  function CleanResponseCode(raw: bv32): bv32 {
    if IsCommMediumError(raw) then raw
    else raw & (if raw & RC_FMT1 != 0 then RC_FMT1 | 0x3F else TPM_RC_NOT_USED)
  }

  /** What is left of any code, digit by digit: a format-one code keeps its bit 7 and its low six bits, any
      other its low seven bits and bits 8 and 11. */
  lemma CleanInNumbers(raw: bv32)
    ensures CleanResponseCode(raw)
            == if raw / 0x1_0000 == 0x8028 then raw
               else if raw / 0x80 % 2 == 1 then 0x80 + raw % 0x40
               else raw % 0x80 + raw / 0x100 % 2 * 0x100 + raw / 0x800 % 2 * 0x800
  {
  }

  lemma CleanIsIdempotent(raw: bv32)
    ensures CleanResponseCode(CleanResponseCode(raw)) == CleanResponseCode(raw)
  {
  }

  /** The codes that cleaning leaves alone are exactly the communication errors, the bare format-one
      codes, and the four blocks of format-zero codes with no location in them. */
  predicate IsBare(code: bv32) {
    || IsCommMediumError(code)
    || code < 0xC0
    || RC_VER1 <= code < RC_VER1 + 0x80
    || TPM_RC_S <= code < TPM_RC_S + 0x80
    || RC_WARN <= code < RC_WARN + 0x80
  }

  lemma CleanKeepsExactly(code: bv32)
    ensures CleanResponseCode(code) == code <==> IsBare(code)
  {
  }

  /** The format-zero, format-one and warning codes of the TPM_RC table. */
  predicate InTable(rc: bv32) {
    match rc
    case 0x000 | 0x01E | 0x100 | 0x101 | 0x103 | 0x10B | 0x119 | 0x120 | 0x121 | 0x124 | 0x125 | 0x126 | 0x127
       | 0x128 | 0x12D | 0x12E | 0x12F | 0x130 | 0x131 | 0x142 | 0x143 | 0x144 | 0x145 | 0x146 | 0x147 | 0x148
       | 0x149 | 0x14A | 0x14B | 0x14C | 0x150 | 0x151 | 0x152 | 0x153 | 0x154 | 0x155 | 0x17F | 0x081 | 0x082
       | 0x083 | 0x084 | 0x085 | 0x087 | 0x088 | 0x089 | 0x08A | 0x08B | 0x08C | 0x08D | 0x08E | 0x08F | 0x090
       | 0x092 | 0x095 | 0x096 | 0x097 | 0x098 | 0x09A | 0x09B | 0x09C | 0x09D | 0x09F | 0x0A0 | 0x0A1 | 0x0A2
       | 0x0A3 | 0x0A4 | 0x0A5 | 0x0A6 | 0x0A7 | 0x901 | 0x902 | 0x903 | 0x904 | 0x905 | 0x906 | 0x907 | 0x908
       | 0x909 | 0x90A | 0x910 | 0x911 | 0x912 | 0x913 | 0x914 | 0x915 | 0x916 | 0x918 | 0x919 | 0x91A | 0x91B
       | 0x91C | 0x91D | 0x91E | 0x920 | 0x921 | 0x922 | 0x923 | 0x97F => true
    case _ => false
  }

  lemma CleanKeepsTable(rc: bv32)
    requires InTable(rc)
    ensures CleanResponseCode(rc) == rc
  {
  }

  /** Where a format-one error was found: parameter, session or handle number, as the TPM adds it to
      the bare code. */
  datatype Location = Parameter(n: bv32) | Session(n: bv32) | Handle(n: bv32) {
    predicate Ok() {
      1 <= n <= if Parameter? then 15 else 7
    }

    function Decorate(code: bv32): bv32 {
      match this
      case Parameter(n) => code + TPM_RC_P + (n << 8)
      case Session(n) => code + TPM_RC_S + (n << 8)
      case Handle(n) => code + (n << 8)
    }
  }

  /** Any location added to a bare format-one code is removed again. */
  lemma CleanRemovesLocation(code: bv32, at: Location)
    requires RC_FMT1 <= code < 0xC0 && at.Ok()
    ensures CleanResponseCode(at.Decorate(code)) == code
  {
  }

  /** Cleaning a code that reports a failure can leave success: exactly for the codes other than
      communication errors whose bits 11, 8 and 7..0 are all clear. */
  lemma CleanHidesFailure(raw: bv32)
    requires raw != 0
    ensures CleanResponseCode(raw) == 0 <==> !IsCommMediumError(raw) && raw & 0x9FF == 0
  {
  }

  lemma HiddenFailureExists()
    ensures CleanResponseCode(0x200) == 0
  {
  }
}
