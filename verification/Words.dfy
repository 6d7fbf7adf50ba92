/** 64-bit words and characters as bytes in memory, little-endian. */
module Words {

  /** The number of values of `n` bytes. */
  function Limit(n: nat): nat {
    if n == 0 then 1 else 256 * Limit(n - 1)
  }

  function Bytes(w: nat, n: nat): (b: seq<nat>)
    ensures |b| == n
  {
    if n == 0 then [] else [w % 256] + Bytes(w / 256, n - 1)
  }

  function Value(b: seq<nat>): nat {
    if b == [] then 0 else b[0] + 256 * Value(b[1..])
  }

  lemma {:induction false} ValueOfBytes(w: nat, n: nat)
    requires w < Limit(n)
    ensures Value(Bytes(w, n)) == w
  {
    if n > 0 {
      ValueOfBytes(w / 256, n - 1);
      assert Bytes(w, n)[1..] == Bytes(w / 256, n - 1);
    }
  }

  /** A table of words as it lies in memory. */
  function TableBytes(table: seq<nat>): (b: seq<nat>)
    ensures |b| == 8 * |table|
  {
    if table == [] then [] else TableBytes(table[..|table| - 1]) + Bytes(table[|table| - 1], 8)
  }

  /** The word at byte offset `o`. */
  function WordAt(page: seq<nat>, o: nat): nat
    requires o + 8 <= |page|
  {
    Value(page[o..o + 8])
  }

  lemma {:induction false} WordOfTable(table: seq<nat>, k: nat)
    requires k < |table| && table[k] < Limit(8)
    ensures WordAt(TableBytes(table), 8 * k) == table[k]
  {
    var n := |table| - 1;
    var init := TableBytes(table[..n]);
    if k < n {
      WordOfTable(table[..n], k);
      assert TableBytes(table)[8 * k..8 * k + 8] == init[8 * k..8 * k + 8];
    } else {
      ValueOfBytes(table[k], 8);
      assert TableBytes(table)[8 * k..8 * k + 8] == Bytes(table[k], 8);
    }
  }

  /** The byte at the lowest address has the lowest weight. */
  lemma LittleEndian(page: seq<nat>, o: nat)
    requires o + 8 <= |page|
    ensures WordAt(page, o) == page[o] + 0x100 * page[o + 1] + 0x1_0000 * page[o + 2] + 0x100_0000 * page[o + 3]
      + 0x1_0000_0000 * page[o + 4] + 0x100_0000_0000 * page[o + 5] + 0x1_0000_0000_0000 * page[o + 6]
      + 0x100_0000_0000_0000 * page[o + 7]
  {
    hide Value;
    var end := o + 8;
    ValueStep(page, o, end);
    ValueStep(page, o + 1, end);
    ValueStep(page, o + 2, end);
    ValueStep(page, o + 3, end);
    ValueStep(page, o + 4, end);
    ValueStep(page, o + 5, end);
    ValueStep(page, o + 6, end);
    ValueStep(page, o + 7, end);
    assert page[end..end] == [];
    NoValue();
  }

  lemma ValueStep(page: seq<nat>, o: nat, end: nat)
    requires o < end <= |page|
    ensures Value(page[o..end]) == page[o] + 256 * Value(page[o + 1..end])
  {
    assert page[o..end][1..] == page[o + 1..end];
  }

  lemma NoValue()
    ensures Value([]) == 0
  {}

  lemma WordLimit()
    ensures Limit(8) == 0x1_0000_0000_0000_0000
  {
    assert Limit(4) == 0x1_0000_0000;
    assert Limit(6) == 256 * (256 * Limit(4));
    assert Limit(8) == 256 * (256 * Limit(6));
  }

  // ----- Characters -----

  /** The character with this code, NUL for what is no code. */
  function CharOf(b: nat): char {
    if b < 0xD800 || 0xE000 <= b < 0x11_0000 then b as char else '\0'
  }

  function Text(page: seq<nat>): (s: seq<char>)
    ensures |s| == |page| && forall i :: 0 <= i < |page| ==> s[i] == CharOf(page[i])
  {
    seq(|page|, i requires 0 <= i < |page| => CharOf(page[i]))
  }

  function Codes(s: seq<char>): (page: seq<nat>)
    ensures |page| == |s| && forall i :: 0 <= i < |s| ==> page[i] == s[i] as nat
  {
    seq(|s|, i requires 0 <= i < |s| => s[i] as nat)
  }

  lemma TextOfCodes(s: seq<char>)
    ensures Text(Codes(s)) == s
  {}
}
