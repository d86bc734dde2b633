/** Decimal text: the counter file and the shard file names of the vault. */
module Decimals {
  import opened Numerics
  import opened Wrappers

  function DigitChar(d: nat): (c: char)
    requires d < 10
    ensures '0' <= c <= '9'
  {
    "0123456789"[d]
  }

  function DigitOf(c: char): Option<nat> {
    if '0' <= c <= '9' then Some(c as nat - '0' as nat) else None
  }

  lemma DigitRoundTrip(d: nat)
    requires d < 10
    ensures DigitOf(DigitChar(d)) == Some(d)
  {
  }

  function Print(n: nat): (s: string)
    ensures s != ""
    ensures forall i :: 0 <= i < |s| ==> '0' <= s[i] <= '9'
  {
    if n < 10 then [DigitChar(n)] else Print(n / 10) + [DigitChar(n % 10)]
  }

  /** The value of a non-empty string of digits. */
  function Digits(s: string): Option<nat> {
    if s == "" then None
    else
      var last, front := DigitOf(s[|s| - 1]), s[..|s| - 1];
      if last.None? then None
      else if front == "" then last
      else
        var high := Digits(front);
        if high.None? then None else Some(10 * high.value + last.value)
  }

  /** `str::parse` for an unsigned integer type below `limit`. */
  function Parse(s: string, limit: nat): Option<nat> {
    var value := Digits(if 1 < |s| && s[0] == '+' then s[1..] else s);
    if value.Some? && value.value < limit then value else None
  }

  lemma DigitsAppend(s: string, d: nat)
    requires d < 10 && Digits(s).Some?
    ensures Digits(s + [DigitChar(d)]) == Some(10 * Digits(s).value + d)
  {
    var all := s + [DigitChar(d)];
    assert all[..|all| - 1] == s && all[|all| - 1] == DigitChar(d);
  }

  lemma {:induction false} DigitsOfPrint(n: nat)
    ensures Digits(Print(n)) == Some(n)
  {
    DigitRoundTrip(n % 10);
    if n < 10 {
    } else {
      DigitsOfPrint(n / 10);
      DigitsAppend(Print(n / 10), n % 10);
    }
  }

  /** Printing and parsing back. */
  lemma {:induction false} PrintParse(n: nat, limit: nat)
    ensures Parse(Print(n), limit) == if n < limit then Some(n) else None
  {
    DigitsOfPrint(n);
  }

  /** Digits are read most significant first; a plus sign in front is allowed, as the standard
      library does; anything else is no number. */
  lemma ParseSpelledOut(s: string, d: nat, limit: nat)
    requires d < 10 && Digits(s).Some?
    ensures Digits(s + ["0123456789"[d]]) == Some(10 * Digits(s).value + d)
    ensures Digits(["0123456789"[d]]) == Some(d)
    ensures Parse("", limit) == None
    ensures Parse("+" + s, limit) == Parse(s, limit)
  {
    var one := [DigitChar(d)];
    assert one[..0] == "";
    DigitsAppend(s, d);
    assert ("+" + s)[1..] == s;
    NoPlusInDigits(s);
  }

  lemma NoPlusInDigits(s: string)
    requires Digits(s).Some?
    ensures forall i :: 0 <= i < |s| ==> '0' <= s[i] <= '9'
  {
    if |s| > 1 {
      NoPlusInDigits(s[..|s| - 1]);
    }
  }

  // ---------- shard_NNN.bin ----------

  /** `{:03}`: at least three digits. */
  function Print3(n: nat): (s: string)
    ensures |s| >= 3
    ensures forall i :: 0 <= i < |s| ==> '0' <= s[i] <= '9'
  {
    var s := Print(n);
    if |s| == 1 then "00" + s else if |s| == 2 then "0" + s else s
  }

  function ShardName(index: nat): string {
    "shard_" + Print3(index) + ".bin"
  }

  /** How `list_shards` reads a file name: three characters between prefix and suffix. */
  function ShardIndex(name: string): Option<nat> {
    if 10 <= |name| && name[..6] == "shard_" && name[|name| - 4..] == ".bin" then
      Parse(name[6..9], U64_LIMIT)
    else None
  }

  lemma LeadingZero(s: string)
    requires s != "" && Digits(s).Some?
    ensures Digits("0" + s) == Digits(s)
    decreases |s|
  {
    assert ("0" + s)[..|s|] == "0" + s[..|s| - 1];
    if |s| <= 1 {
    } else {
      LeadingZero(s[..|s| - 1]);
    }
  }

  lemma DigitsOfPrint3(n: nat)
    ensures Digits(Print3(n)) == Some(n)
  {
    DigitsOfPrint(n);
    var s := Print(n);
    if |s| < 3 {
      LeadingZero(s);
      LeadingZero("0" + s);
      assert "0" + ("0" + s) == "00" + s;
    }
  }

  /** Names have the prefix, at least three digits filled up with zeros, and the suffix. */
  lemma NamesSpelledOut(index: nat)
    ensures ShardName(index) == "shard_"
                                + (if index < 10 then "00" else if index < 100 then "0" else "")
                                + Print(index) + ".bin"
  {
    PrintLength(index);
  }

  /** Different shards have different files. */
  lemma ShardNamesDiffer(i: nat, j: nat)
    requires ShardName(i) == ShardName(j)
    ensures i == j
  {
    var a, b := ShardName(i), ShardName(j);
    assert Print3(i) == a[6..|a| - 4] && Print3(j) == b[6..|b| - 4];
    DigitsOfPrint3(i);
    DigitsOfPrint3(j);
  }

  lemma {:induction false} PrintLength(n: nat)
    ensures n < 10 <==> |Print(n)| <= 1
    ensures n < 100 <==> |Print(n)| <= 2
    ensures n < 1000 <==> |Print(n)| <= 3
  {
    if n < 10 {
    } else {
      if n / 10 >= 10 {
        PrintLength(n / 100);
      }
    }
  }

  lemma {:induction false} DigitsBound3(s: string)
    requires |s| == 3 && Digits(s).Some?
    ensures Digits(s).value < 1000
  {
    var two := s[..2];
    var one := two[..1];
    assert one[..0] == "";
    assert Digits(one).Some? && Digits(one).value < 10;
    assert Digits(two).Some? && Digits(two).value < 100;
  }

  /** The name of a shard is read back as its index exactly for indices of three digits. */
  lemma NameRoundTrip(index: nat)
    ensures ShardIndex(ShardName(index)) == Some(index) <==> index < 1000
  {
    var name, digits := ShardName(index), Print3(index);
    assert name[..6] == "shard_" && name[|name| - 4..] == ".bin";
    assert name[6..9] == digits[..3];
    PrintLength(index);
    DigitsOfPrint3(index);
    if index < 1000 {
      assert digits[..3] == digits;
    } else if Digits(digits[..3]).Some? {
      DigitsBound3(digits[..3]);
    }
  }

  /** The number made of the first three digits. */
  function FirstThree(n: nat): nat {
    if n < 1000 then n else FirstThree(n / 10)
  }

  /** A longer index is read back as its first three digits. */
  lemma {:induction false} LongNameIsCut(index: nat)
    ensures ShardIndex(ShardName(index)) == Some(FirstThree(index))
  {
    var name, digits := ShardName(index), Print3(index);
    assert name[..6] == "shard_" && name[|name| - 4..] == ".bin" && name[6..9] == digits[..3];
    PrintLength(index);
    if index < 1000 {
      DigitsOfPrint3(index);
      assert digits[..3] == digits;
    } else {
      var shorter := ShardName(index / 10);
      LongNameIsCut(index / 10);
      PrintLength(index / 10);
      assert shorter[..6] == "shard_" && shorter[|shorter| - 4..] == ".bin";
      assert shorter[6..9] == Print3(index / 10)[..3] == digits[..3];
    }
  }

  /** Of any other name only the three characters after the prefix are read, as a number. */
  lemma NameIsReadAs(s: string, rest: string)
    requires |s| == 3
    ensures ShardIndex("shard_" + s + rest + ".bin") == Parse(s, U64_LIMIT)
  {
    var name := "shard_" + s + rest + ".bin";
    assert name[..6] == "shard_" && name[|name| - 4..] == ".bin" && name[6..9] == s;
  }
}
