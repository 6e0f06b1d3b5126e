/** Printing and parsing the configuration undo each other. */
module OlcTheorems {
  import opened Kernel
  import opened OlcSpec

  function Pow16(k: nat): nat {
    if k == 0 then 1 else 16 * Pow16(k - 1)
  }

  lemma Pow16Of16()
    ensures Pow16(16) == TWO_TO_THE_64
  {
    assert Pow16(4) == 0x1_0000;
    assert Pow16(8) == 0x1_0000_0000;
    assert Pow16(12) == 0x1_0000_0000_0000;
  }

  lemma {:induction false} HexFits(v: nat, k: nat)
    requires v < Pow16(k) && 0 < k
    ensures |Hex(v)| <= k
  {
    if v < 16 {
    } else {
      HexFits(v / 16, k - 1);
    }
  }

  /** A 64-bit word prints as one to sixteen digits. */
  lemma HexLength(v: UInt64)
    ensures 1 <= |Hex(v)| <= 16
  {
    Pow16Of16();
    HexFits(v, 16);
  }

  lemma DigitRoundTrip(d: nat)
    requires d < 16
    ensures DigitValue(DIGITS[d]) == Some(d)
  {
    assert DIGITS[0] == '0' && DIGITS[9] == '9' && DIGITS[10] == 'a' && DIGITS[15] == 'f';
  }

  lemma {:induction false} HexIsDigits(v: nat)
    ensures AllDigits(Hex(v)) && Value(Hex(v)) == v
  {
    var s := Hex(v);
    DigitRoundTrip(v % 16);
    if v < 16 {
      assert s[..|s| - 1] == [];
    } else {
      HexIsDigits(v / 16);
      assert s[..|s| - 1] == Hex(v / 16);
    }
  }

  lemma DigitIsPlain(c: char)
    requires DigitValue(c).Some?
    ensures c != '+' && c != 'x' && c != 'X' && c != '\n' && c != ','
  {
  }

  lemma ParseDigits(s: string)
    requires s != [] && AllDigits(s) && Value(s) < TWO_TO_THE_64
    ensures Parse(s) == Some(Value(s))
  {
    DigitIsPlain(s[0]);
    DigitIsPlain(s[|s| - 1]);
    if |s| > 1 {
      DigitIsPlain(s[1]);
    }
  }

  /** One word: the parser reads back what the printer wrote. */
  lemma ParseHex(v: UInt64)
    ensures Parse(Hex(v)) == Some(v)
  {
    HexIsDigits(v);
    ParseDigits(Hex(v));
  }

  lemma {:induction false} TokenLengthUnique(s: string, n: nat)
    requires n <= |s| && ',' !in s[..n] && (n < |s| ==> s[n] == ',')
    ensures TokenLength(s) == n
  {
    if n == 0 {
    } else {
      assert s[..n][0] == s[0];
      assert s[1..][..n - 1] == s[..n][1..];
      TokenLengthUnique(s[1..], n - 1);
    }
  }

  lemma HexHasNoComma(v: nat)
    ensures ',' !in Hex(v)
  {
    HexIsDigits(v);
    assert DigitValue(',') == None;
  }

  predicate Short(words: seq<string>) {
    forall i :: 0 <= i < |words| ==> 1 <= |words[i]| <= 16
  }

  lemma WordsAreShort(table: seq<UInt64>)
    ensures Short(Words(table))
  {
    forall i | 0 <= i < |table| ensures 1 <= |Hex(table[i])| <= 16 {
      HexLength(table[i]);
    }
  }

  lemma {:induction false} PrintedLength(words: seq<string>)
    requires Short(words)
    ensures |words| <= |Printed(words)| <= 17 * |words|
  {
    if words == [] {
    } else {
      PrintedLength(words[1..]);
    }
  }

  lemma Associate(a: string, b: string, c: string)
    ensures a + "," + (b + c + ",") == a + "," + b + c + ","
  {
  }

  lemma {:induction false} PrintedAppend(words: seq<string>, w: string)
    ensures Printed(words + [w]) == Printed(words) + w + ","
  {
    if words == [] {
      assert ([w])[1..] == [] && [] + [w] == [w];
    } else {
      assert (words + [w])[1..] == words[1..] + [w];
      PrintedAppend(words[1..], w);
      Associate(words[0], Printed(words[1..]), w);
    }
  }

  /** Joined words begin with the first one; a comma and the others follow. */
  lemma JoinedFront(words: seq<string>)
    requires words != [] && Short(words) && ',' !in words[0]
    ensures var n, text := |words[0]|, Joined(words);
            && TokenLength(text) == n
            && text[..n] == words[0]
            && (|words| == 1 ==> |text| == n)
            && (|words| > 1 ==> n < |text| && text[n + 1..] == Joined(words[1..]))
  {
    var h, text, q := words[0], Joined(words), Printed(words[1..]);
    PrintedLength(words[1..]);
    if |words| == 1 {
      assert q == [] && text == h;
    } else {
      assert text == h + "," + q[..|q| - 1];
    }
    assert text[..|h|] == h;
    TokenLengthUnique(text, |h|);
  }

  /** One round of the parser: a token that reads as v is stored. */
  lemma StoreOne(table: seq<UInt64>, num: nat, text: string, v: UInt64)
    requires num < |table| && TokenLength(text) <= OLC_CONFIG_BIT_NUM
    requires Parse(text[..TokenLength(text)]) == Some(v)
    ensures var n, table1 := TokenLength(text), table[num := v];
            Store(table, num, text) ==
              if num + 1 >= |table| || n == |text| then table1 else Store(table1, num + 1, text[n + 1..])
  {
  }

  lemma ReplaceTail(table: seq<UInt64>, num: nat, rest: seq<UInt64>)
    requires num < |table| && |rest| == |table| - num
    ensures table[num := rest[0]][..num + 1] + rest[1..] == table[..num] + rest
    ensures |rest| == 1 ==> table[num := rest[0]] == table[..num] + rest
  {
  }

  /** The front of a table's text is a token that reads as its first word. */
  lemma FirstWord(rest: seq<UInt64>)
    requires rest != []
    ensures var text := Text(rest);
            var n := TokenLength(text);
            && n <= OLC_CONFIG_BIT_NUM
            && Parse(text[..n]) == Some(rest[0])
            && (|rest| == 1 ==> n == |text|)
            && (|rest| > 1 ==> n < |text| && text[n + 1..] == Text(rest[1..]))
  {
    WordsAreShort(rest);
    HexHasNoComma(rest[0]);
    JoinedFront(Words(rest));
    ParseHex(rest[0]);
    assert |rest| > 1 ==> Words(rest)[1..] == Words(rest[1..]);
  }

  /** Storing the text of `rest` from entry num on replaces the tail of the table by it. */
  lemma {:induction false} StoreText(table: seq<UInt64>, num: nat, rest: seq<UInt64>)
    requires num < |table| && |rest| == |table| - num
    ensures Store(table, num, Text(rest)) == table[..num] + rest
    decreases |rest|
  {
    var text, table1 := Text(rest), table[num := rest[0]];
    FirstWord(rest);
    StoreOne(table, num, text, rest[0]);
    ReplaceTail(table, num, rest);
    if |rest| > 1 {
      StoreText(table1, num + 1, rest[1..]);
    }
  }

  /** The text of a whole table fits the parser's buffer, even with sixteen digits in every entry. */
  lemma TextFits(table: seq<UInt64>)
    requires |table| == OLC_CONFIG_NUM_MAX
    ensures Truncated(Text(table)) == Text(table)
  {
    WordsAreShort(table);
    PrintedLength(Words(table));
  }

  /** Main result: parsing what was printed from a table yields that table, whatever was there before. */
  lemma RoundTrip(table: seq<UInt64>, before: seq<UInt64>)
    requires |table| == |before| == OLC_CONFIG_NUM_MAX
    ensures Configured(before, Text(table)) == table
  {
    TextFits(table);
    StoreText(before, 0, table);
    assert before[..0] + table == table;
  }

  /** Hence two different tables never print alike. */
  lemma TextIsInjective(a: seq<UInt64>, b: seq<UInt64>)
    requires |a| == |b| == OLC_CONFIG_NUM_MAX && Text(a) == Text(b)
    ensures a == b
  {
    RoundTrip(a, a);
    RoundTrip(b, a);
  }
}
