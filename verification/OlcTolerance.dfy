/** What the configuration parser accepts beside printed text, and what it makes of words it does not accept. */
module OlcTolerance {
  import opened Kernel
  import opened OlcSpec
  import opened OlcTheorems

  // ---------- digits ----------

  /** The printed form has lower-case digits and no leading zero. */
  lemma {:induction false} HexIsPlain(v: nat)
    ensures forall i :: 0 <= i < |Hex(v)| ==> '0' <= Hex(v)[i] <= '9' || 'a' <= Hex(v)[i] <= 'f'
    ensures |Hex(v)| > 1 ==> Hex(v)[0] != '0'
  {
    DigitIsLower(v % 16);
    if v < 16 {
    } else {
      HexIsPlain(v / 16);
      assert Hex(v)[0] == Hex(v / 16)[0];
      SingleDigit(v / 16);
      if v / 16 < 16 {
        DigitIsLower(v / 16);
      }
    }
  }

  lemma DigitIsLower(d: nat)
    requires d < 16
    ensures '0' <= DIGITS[d] <= '9' || 'a' <= DIGITS[d] <= 'f'
    ensures DIGITS[d] == '0' <==> d == 0
  {
    assert DIGITS[0] == '0' && DIGITS[1] == '1' && DIGITS[2] == '2' && DIGITS[3] == '3' && DIGITS[4] == '4';
    assert DIGITS[5] == '5' && DIGITS[6] == '6' && DIGITS[7] == '7' && DIGITS[8] == '8' && DIGITS[9] == '9';
    assert DIGITS[10] == 'a' && DIGITS[11] == 'b' && DIGITS[12] == 'c' && DIGITS[13] == 'd' && DIGITS[14] == 'e';
    assert DIGITS[15] == 'f';
  }

  lemma SingleDigit(v: nat)
    ensures |Hex(v)| == 1 <==> v < 16
  {
  }

  function UpperDigit(c: char): char {
    if 'a' <= c <= 'f' then (c as int - 'a' as int + 'A' as int) as char else c
  }

  /** The digits in upper case. */
  function Upper(s: string): (t: string)
    ensures |t| == |s| && forall i :: 0 <= i < |s| ==> t[i] == UpperDigit(s[i])
  {
    seq(|s|, i requires 0 <= i < |s| => UpperDigit(s[i]))
  }

  lemma UpperDigitSame(c: char)
    requires DigitValue(c).Some?
    ensures DigitValue(UpperDigit(c)) == DigitValue(c)
  {
  }

  lemma {:induction false} UpperSame(s: string)
    requires AllDigits(s)
    ensures AllDigits(Upper(s)) && Value(Upper(s)) == Value(s)
  {
    forall i | 0 <= i < |s| ensures DigitValue(Upper(s)[i]) == DigitValue(s[i]) {
      UpperDigitSame(s[i]);
    }
    if s == [] {
    } else {
      UpperSame(s[..|s| - 1]);
      assert Upper(s)[..|s| - 1] == Upper(s[..|s| - 1]);
    }
  }

  /** A word reads the same in upper case. */
  lemma ParseUpperHex(v: UInt64)
    ensures Parse(Upper(Hex(v))) == Some(v)
  {
    HexIsDigits(v);
    UpperSame(Hex(v));
    ParseDigits(Upper(Hex(v)));
  }

  // ---------- sign, prefix and newline ----------

  function Dressed(plus: bool, prefix: string, digits: string, newline: bool): string {
    (if plus then "+" else "") + (prefix + (digits + if newline then "\n" else ""))
  }

  /** A plus sign, either prefix and a final newline make no difference; too large a number is not accepted. */
  lemma ParseDressed(plus: bool, prefix: string, digits: string, newline: bool)
    requires digits != [] && AllDigits(digits) && prefix in {"", "0x", "0X"}
    ensures Parse(Dressed(plus, prefix, digits, newline)) ==
              if Value(digits) < TWO_TO_THE_64 then Some(Value(digits)) else None
  {
    var tail := digits + if newline then "\n" else "";
    TailWithoutNewline(digits, newline);
    BodyWithoutPrefix(prefix, digits, tail);
    WholeWithoutPlus(plus, prefix, digits, tail);
    ParseInSteps(Dressed(plus, prefix, digits, newline), prefix + tail, tail, digits);
  }

  lemma ParseInSteps(s: string, s1: string, s2: string, s3: string)
    requires WithoutPlus(s) == s1 && WithoutPrefix(s1) == s2 && WithoutNewline(s2) == s3 && s3 != [] && AllDigits(s3)
    ensures Parse(s) == if Value(s3) < TWO_TO_THE_64 then Some(Value(s3)) else None
  {
  }

  lemma TailWithoutNewline(digits: string, newline: bool)
    requires digits != [] && AllDigits(digits)
    ensures WithoutNewline(digits + if newline then "\n" else "") == digits
  {
    var tail := digits + if newline then "\n" else "";
    DigitIsPlain(digits[|digits| - 1]);
    if newline {
      assert tail[..|tail| - 1] == digits;
    } else {
      assert tail == digits;
    }
  }

  lemma BodyWithoutPrefix(prefix: string, digits: string, tail: string)
    requires digits != [] && AllDigits(digits) && digits <= tail && prefix in {"", "0x", "0X"}
    requires |tail| == |digits| || tail == digits + "\n"
    ensures WithoutPrefix(prefix + tail) == tail
  {
    if prefix == "" {
      assert prefix + tail == tail;
      if |digits| > 1 {
        DigitIsPlain(digits[1]);
        assert tail[1] == digits[1];
      }
    } else {
      assert (prefix + tail)[2..] == tail;
    }
  }

  lemma WholeWithoutPlus(plus: bool, prefix: string, digits: string, tail: string)
    requires digits != [] && AllDigits(digits) && digits <= tail && prefix in {"", "0x", "0X"}
    ensures WithoutPlus((if plus then "+" else "") + (prefix + tail)) == prefix + tail
  {
    DigitIsPlain(digits[0]);
    assert (prefix + tail)[0] != '+';
    if plus {
      assert ("+" + (prefix + tail))[1..] == prefix + tail;
    } else {
      assert "" + (prefix + tail) == prefix + tail;
    }
  }

  // ---------- words that are not accepted ----------

  predicate NoCommas(words: seq<string>) {
    forall i :: 0 <= i < |words| ==> ',' !in words[i]
  }

  lemma {:induction false} PrintedIsLong(words: seq<string>)
    ensures |words| <= |Printed(words)|
  {
    if words == [] {
    } else {
      PrintedIsLong(words[1..]);
    }
  }

  lemma FrontOfWords(words: seq<string>)
    requires words != [] && ',' !in words[0]
    ensures var n, text := |words[0]|, Joined(words);
            && TokenLength(text) == n
            && text[..n] == words[0]
            && (|words| == 1 ==> |text| == n)
            && (|words| > 1 ==> n < |text| && text[n + 1..] == Joined(words[1..]))
  {
    var h, text, q := words[0], Joined(words), Printed(words[1..]);
    PrintedIsLong(words[1..]);
    if |words| == 1 {
      assert q == [] && text == h;
    } else {
      assert text == h + "," + q[..|q| - 1];
    }
    assert text[..|h|] == h;
    TokenLengthUnique(text, |h|);
  }

  /** How many words come before one that is too long. */
  function Usable(words: seq<string>): (n: nat)
    ensures n <= |words|
    ensures forall i :: 0 <= i < n ==> |words[i]| <= 16
    ensures n < |words| ==> |words[n]| > 16
  {
    if words == [] || |words[0]| > 16 then 0 else 1 + Usable(words[1..])
  }

  /** The entry that the words leave at place i, if the first of them is for entry num. */
  function EntryAfter(table: seq<UInt64>, num: nat, words: seq<string>, i: nat): UInt64
    requires i < |table|
  {
    if num <= i < num + Usable(words) && Parse(words[i - num]).Some? then Parse(words[i - num]).value else table[i]
  }

  /**
   Main result: storing any comma-separated words writes each word that reads as a number into the entry of its place,
   leaves the entry of a word that does not as it is, and ends before a word of more than sixteen characters
   and at the end of the table.
   */
  lemma {:induction false} StoreAnyWords(table: seq<UInt64>, num: nat, words: seq<string>, i: nat)
    requires num < |table| && i < |table| && words != [] && NoCommas(words)
    ensures Store(table, num, Joined(words))[i] == EntryAfter(table, num, words, i)
    decreases |words|
  {
    var text, word := Joined(words), words[0];
    FrontOfWords(words);
    StoreFront(table, num, text);
    if |word| <= 16 && (num + 1 == |table| || |words| == 1) {
      LastEntry(table, num, words, i);
    } else if |word| <= 16 {
      var table1 := Entered(table, num, word);
      StoreAnyWords(table1, num + 1, words[1..], i);
      EntryStep(table, num, words, i);
    }
  }

  /** One entry filled from its word. */
  function Entered(table: seq<UInt64>, num: nat, word: string): (t: seq<UInt64>)
    requires num < |table|
    ensures |t| == |table|
  {
    if Parse(word).Some? then table[num := Parse(word).value] else table
  }

  lemma StoreFront(table: seq<UInt64>, num: nat, text: string)
    requires num < |table|
    ensures var n := TokenLength(text);
            Store(table, num, text) ==
              if n > 16 then table
              else if num + 1 >= |table| || n == |text| then Entered(table, num, text[..n])
              else Store(Entered(table, num, text[..n]), num + 1, text[n + 1..])
  {
  }

  lemma LastEntry(table: seq<UInt64>, num: nat, words: seq<string>, i: nat)
    requires num < |table| && i < |table| && words != [] && |words[0]| <= 16 && (num + 1 == |table| || |words| == 1)
    ensures Entered(table, num, words[0])[i] == EntryAfter(table, num, words, i)
  {
    assert Usable(words) == 1 + Usable(words[1..]);
  }

  lemma EntryStep(table: seq<UInt64>, num: nat, words: seq<string>, i: nat)
    requires num < |table| && i < |table| && |words| > 1 && |words[0]| <= 16
    ensures EntryAfter(Entered(table, num, words[0]), num + 1, words[1..], i) == EntryAfter(table, num, words, i)
  {
    assert Usable(words) == 1 + Usable(words[1..]);
    if num < i < num + Usable(words) {
      assert words[1..][i - num - 1] == words[i - num];
    }
  }

  /** What does not fit the parser's buffer of 272 characters with its terminator is not looked at. */
  lemma OnlyTheFront(table: seq<UInt64>, a: string, b: string)
    requires |table| == OLC_CONFIG_NUM_MAX && |a| >= 271 && |b| >= 271 && a[..271] == b[..271]
    ensures Configured(table, a) == Configured(table, b)
  {
    assert Truncated(a) == a[..271] && Truncated(b) == b[..271];
  }
}
