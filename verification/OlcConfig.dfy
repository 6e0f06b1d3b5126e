/** The two accessors of the exception-report configuration, over character buffers. */
module OlcConfig {
  import opened Kernel
  import opened OlcSpec
  import opened OlcTheorems

  /** snprintf: as much of s as fits, a terminator, and the length s has. */
  method Snprintf(buf: array<char>, size: nat, s: string) returns (len: nat)
    requires 0 < size <= buf.Length
    modifies buf
    ensures len == |s|
    ensures buf[..Min(|s|, size - 1)] == s[..Min(|s|, size - 1)]
    ensures buf[Min(|s|, size - 1)] == '\0'
  {
    var i := 0;
    while i < |s| && i < size - 1
      invariant 0 <= i <= Min(|s|, size - 1)
      invariant buf[..i] == s[..i]
    {
      buf[i] := s[i];
      i := i + 1;
    }
    buf[i] := '\0';
    return |s|;
  }

  /** memcpy */
  method CopyChars(buf: array<char>, idx: nat, src: array<char>, len: nat)
    requires buf != src && idx + len <= buf.Length && len <= src.Length
    modifies buf
    ensures buf[..idx] == old(buf[..idx]) && buf[idx..idx + len] == src[..len]
  {
    var i := 0;
    while i < len
      invariant 0 <= i <= len
      invariant buf[..idx] == old(buf[..idx])
      invariant buf[idx..idx + i] == src[..i]
    {
      buf[idx + i] := src[i];
      i := i + 1;
    }
  }

  /** The first n characters are the same. */
  ghost predicate Agrees(a: string, b: string, n: nat) {
    n <= |a| && n <= |b| && forall i :: 0 <= i < n ==> a[i] == b[i]
  }

  /** What is printed after one more word. */
  lemma PrintedNext(words: seq<string>, num: nat)
    requires num < |words|
    ensures Printed(words[..num + 1]) == Printed(words[..num]) + (words[num] + ",")
  {
    assert words[..num + 1] == words[..num] + [words[num]];
    PrintedAppend(words[..num], words[num]);
  }

  /** A copied piece extends what the buffer already agrees with, as far as the piece itself is right. */
  lemma PrefixGrows(all: string, before: string, piece: string, entry: string, n: nat)
    requires all == before + piece && |piece| == |entry| && n <= |entry| && piece[..n] == entry[..n]
    ensures Agrees(all, before + entry, |before| + n)
  {
    forall i | 0 <= i < |before| + n ensures all[i] == (before + entry)[i] {
      if |before| <= i {
        assert piece[..n][i - |before|] == entry[..n][i - |before|];
      }
    }
  }

  class Config {
    const olc: array<UInt64>

    ghost predicate Valid() {
      olc.Length == OLC_CONFIG_NUM_MAX
    }

    constructor ()
      ensures Valid() && fresh(olc) && forall i :: 0 <= i < olc.Length ==> olc[i] == 0
    {
      olc := new UInt64[OLC_CONFIG_NUM_MAX](_ => 0);
    }

    /** One round of the printer: the piece goes through the temporary, which cuts it off where the page would end. */
    method PrintEntry(buf: array<char>, tmpbuf: array<char>, idx: nat, piece: string,
        ghost before: string)
      returns (len: nat)
      requires buf != tmpbuf && tmpbuf.Length == OLC_CONFIG_SIZE <= buf.Length
      requires idx < OLC_CONFIG_SIZE && idx + |piece| <= OLC_CONFIG_SIZE
      requires |before| == idx && Agrees(buf[..], before, idx)
      modifies buf, tmpbuf
      ensures len == |piece|
      ensures Agrees(buf[..], before + piece, Min(idx + |piece|, OLC_CONFIG_SIZE - 1))
    {
      len := Snprintf(tmpbuf, OLC_CONFIG_SIZE - idx, piece);
      CopyChars(buf, idx, tmpbuf, len);
      assert buf[..idx] == before;
      assert buf[..idx + len] == before + buf[idx..idx + len];
      PrefixGrows(buf[..idx + len], before, tmpbuf[..len], piece, Min(len, OLC_CONFIG_SIZE - idx - 1));
    }

    /** oplus_chg_olc_config_get: prints through a temporary of the configured size into the caller's page. */
    method ConfigGet(buf: array<char>) returns (len: int)
      requires Valid() && buf.Length >= OLC_CONFIG_SIZE
      modifies buf
      ensures 0 <= len < OLC_CONFIG_SIZE && buf[..len] == Text(olc[..])
    {
      ghost var words := Words(olc[..]);
      WordsAreShort(olc[..]);
      var tmpbuf := new char[OLC_CONFIG_SIZE](_ => '\0');
      var idx, num := 0, 0;
      while num < OLC_CONFIG_NUM_MAX
        invariant 0 <= num <= OLC_CONFIG_NUM_MAX
        invariant num <= idx == |Printed(words[..num])| <= 17 * num
        invariant Agrees(buf[..], Printed(words[..num]), Min(idx, OLC_CONFIG_SIZE - 1))
      {
        PrintedNext(words, num);
        var printed := PrintEntry(buf, tmpbuf, idx, Hex(olc[num]) + ",", Printed(words[..num]));
        idx := idx + printed;
        num := num + 1;
      }
      assert words[..num] == words;
      assert buf[..idx - 1] == buf[..][..idx - 1];
      return idx - 1;
    }

    /** strsep: the length of the token at the front. */
    method FindComma(rest: string) returns (len: nat)
      ensures len == TokenLength(rest)
    {
      len := 0;
      while len < |rest| && rest[len] != ','
        invariant 0 <= len <= |rest| && ',' !in rest[..len]
      {
        len := len + 1;
      }
      TokenLengthUnique(rest, len);
    }

    /** kstrtoull into entry num, which keeps its value if the token does not parse. */
    method ParseInto(num: nat, token: string)
      requires Valid() && num < OLC_CONFIG_NUM_MAX
      modifies olc
      ensures olc[..] == var v := Parse(token); if v.Some? then old(olc[..])[num := v.value] else old(olc[..])
    {
      var v := Parse(token);
      if v.Some? {
        olc[num] := v.value;
      }
    }

    /** oplus_chg_olc_config_set: splits a bounded copy of the text at its commas. */
    method ConfigSet(text: string)
      requires Valid()
      modifies olc
      ensures olc[..] == Configured(old(olc[..]), text)
    {
      var rest := Truncated(text);
      var num := 0;
      while true
        invariant 0 <= num < OLC_CONFIG_NUM_MAX
        invariant Configured(old(olc[..]), text) == Store(olc[..], num, rest)
        decreases OLC_CONFIG_NUM_MAX - num
      {
        var len := FindComma(rest);
        if len > OLC_CONFIG_BIT_NUM {
          break;
        }
        ParseInto(num, rest[..len]);
        if num + 1 >= OLC_CONFIG_NUM_MAX || len == |rest| {
          break;
        }
        num := num + 1;
        rest := rest[len + 1..];
      }
    }
  }
}
