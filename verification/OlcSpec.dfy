/**
 The exception-report configuration text of oplus_chg_track.c: a table of 64-bit words printed as
 comma-separated hexadecimal, and parsed back.
 */
module OlcSpec {
  import opened Kernel

  const OLC_CONFIG_NUM_MAX := 16
  const OLC_CONFIG_SIZE := 16 * 16 + 16
  const OLC_CONFIG_BIT_NUM := 16
  const TWO_TO_THE_64 := 0x1_0000_0000_0000_0000

  type UInt64 = x: int | 0 <= x < TWO_TO_THE_64

  // ---------- printing ----------

  const DIGITS := "0123456789abcdef"

  /** %llx */
  function Hex(v: nat): (s: string)
    ensures s != []
  {
    (if v < 16 then [] else Hex(v / 16)) + [DIGITS[v % 16]]
  }

  /** The printed words of a table. */
  function Words(table: seq<UInt64>): (words: seq<string>)
    ensures |words| == |table| && forall i :: 0 <= i < |words| ==> words[i] == Hex(table[i])
  {
    seq(|table|, i requires 0 <= i < |table| => Hex(table[i]))
  }

  /** Words, each followed by a comma. */
  function Printed(words: seq<string>): string {
    if words == [] then [] else words[0] + "," + Printed(words[1..])
  }

  /** The words with a comma between them: the comma after the last one is not shown. */
  function Joined(words: seq<string>): string {
    var p := Printed(words);
    if p == [] then [] else p[..|p| - 1]
  }

  function Text(table: seq<UInt64>): string {
    Joined(Words(table))
  }

  // ---------- parsing ----------

  function DigitValue(c: char): Option<nat> {
    if '0' <= c <= '9' then Some(c as int - '0' as int)
    else if 'a' <= c <= 'f' then Some(c as int - 'a' as int + 10)
    else if 'A' <= c <= 'F' then Some(c as int - 'A' as int + 10)
    else None
  }

  predicate AllDigits(s: string) {
    forall i :: 0 <= i < |s| ==> DigitValue(s[i]).Some?
  }

  function Value(s: string): nat
    requires AllDigits(s)
  {
    if s == [] then 0 else 16 * Value(s[..|s| - 1]) + DigitValue(s[|s| - 1]).value
  }

  /** kstrtoull in base 16: an optional sign and prefix, digits that fit 64 bits, an optional newline. */
  function Parse(s: string): Option<UInt64> {
    Number(WithoutNewline(WithoutPrefix(WithoutPlus(s))))
  }

  function WithoutPlus(s: string): string {
    if |s| > 0 && s[0] == '+' then s[1..] else s
  }

  function WithoutPrefix(s: string): string {
    if |s| > 1 && s[0] == '0' && (s[1] == 'x' || s[1] == 'X') then s[2..] else s
  }

  function WithoutNewline(s: string): string {
    if |s| > 0 && s[|s| - 1] == '\n' then s[..|s| - 1] else s
  }

  function Number(s: string): Option<UInt64> {
    if s != [] && AllDigits(s) && Value(s) < TWO_TO_THE_64 then Some(Value(s)) else None
  }

  /** The length of the first token: up to a comma or the end. */
  function TokenLength(s: string): (n: nat)
    ensures n <= |s|
    ensures ',' !in s[..n]
    ensures n < |s| ==> s[n] == ','
  {
    if s == [] || s[0] == ',' then 0 else 1 + TokenLength(s[1..])
  }

  /** Store the tokens from entry num on; a token that is too long ends it, one that does not parse is skipped. */
  function Store(table: seq<UInt64>, num: nat, text: string): (t: seq<UInt64>)
    requires num < |table|
    ensures |t| == |table|
    decreases |table| - num
  {
    var n := TokenLength(text);
    if n > OLC_CONFIG_BIT_NUM then table
    else
      var v := Parse(text[..n]);
      var table1 := if v.Some? then table[num := v.value] else table;
      if num + 1 >= |table| || n == |text| then table1 else Store(table1, num + 1, text[n + 1..])
  }

  /** What fits the parser's buffer. */
  function Truncated(text: string): string {
    if |text| < OLC_CONFIG_SIZE then text else text[..OLC_CONFIG_SIZE - 1]
  }

  function Configured(table: seq<UInt64>, text: string): seq<UInt64>
    requires |table| == OLC_CONFIG_NUM_MAX
  {
    Store(table, 0, Truncated(text))
  }
}
