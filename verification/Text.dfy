/** The textual patterns of journal fields (shared.py, operation_journal.py). */
module Text {
  import opened Utf8

  const SEQUENCE_MAX := 0xFFFF_FFFF_FFFF_FFFF
  const MAX_TEXT_BYTES := 512

  predicate IsDigit(c: char) { '0' <= c <= '9' }

  predicate IsHex(c: char) { IsDigit(c) || 'a' <= c <= 'f' }

  predicate IsWord(c: char) { IsDigit(c) || 'a' <= c <= 'z' || 'A' <= c <= 'Z' || c == '_' }

  /** op- and 32 lower-case hexadecimal digits. */
  predicate IsOperationId(s: string) {
    |s| == 35 && s[..3] == "op-" && forall i :: 3 <= i < 35 ==> IsHex(s[i])
  }

  predicate IsGeneration(s: string) {
    |s| == 64 && forall i :: 0 <= i < 64 ==> IsHex(s[i])
  }

  /** 8-4-4-4-12 lower-case hexadecimal digits. */
  predicate IsBootId(s: string) {
    |s| == 36 && forall i :: 0 <= i < 36 ==> if i in {8, 13, 18, 23} then s[i] == '-' else IsHex(s[i])
  }

  /** A root-level PackageKit transaction: 1 to 20 digits, an underscore, 1 to 64 word characters. */
  predicate IsPackageKitPath(s: string) {
    && 4 <= |s| <= 86
    && s[0] == '/'
    && exists k :: 2 <= k <= 21 && k + 1 < |s| <= k + 65
         && s[k] == '_'
         && (forall i :: 1 <= i < k ==> IsDigit(s[i]))
         && (forall i :: k < i < |s| ==> IsWord(s[i]))
  }

  function Digit(c: char): nat
    requires IsDigit(c)
  { c as int - '0' as int }

  function TwoDigits(s: string, i: nat): nat
    requires i + 1 < |s| && IsDigit(s[i]) && IsDigit(s[i + 1])
  { 10 * Digit(s[i]) + Digit(s[i + 1]) }

  predicate IsLeapYear(year: nat) {
    year % 4 == 0 && (year % 100 != 0 || year % 400 == 0)
  }

  function DaysInMonth(year: nat, month: nat): nat {
    if month == 2 then (if IsLeapYear(year) then 29 else 28)
    else if month in {4, 6, 9, 11} then 30
    else 31
  }

  /** YYYY-MM-DDThh:mm:ssZ naming an instant that datetime.strptime accepts. */
  predicate IsTimestamp(s: string) {
    && |s| == 20
    && (forall i :: 0 <= i < 20 ==>
          if i in {4, 7} then s[i] == '-'
          else if i == 10 then s[i] == 'T'
          else if i in {13, 16} then s[i] == ':'
          else if i == 19 then s[i] == 'Z'
          else IsDigit(s[i]))
    && var year := 100 * TwoDigits(s, 0) + TwoDigits(s, 2);
       var month := TwoDigits(s, 5);
       1 <= year && 1 <= month <= 12 && 1 <= TwoDigits(s, 8) <= DaysInMonth(year, month)
       && TwoDigits(s, 11) < 24 && TwoDigits(s, 14) < 60 && TwoDigits(s, 17) < 60
  }

  /** Journal payloads are single lines without NUL. */
  predicate IsLine(s: string) { '\0' !in s && '\r' !in s && '\n' !in s }

  /** A field: a line without the tab that separates fields. */
  predicate IsField(s: string) { IsLine(s) && '\t' !in s }

  predicate IsDetail(s: string) { IsField(s) && |Encode(s)| <= MAX_TEXT_BYTES }
}
