// Words in the byte order of another machine, as src/mprof.c converts them.
module ByteOrder {

  const WORD := 8

  function Power(n: nat): (p: nat)
    ensures p > 0
  {
    if n == 0 then 1 else 256 * Power(n - 1)
  }

  // The n lowest bytes of a word, and the word with the given bytes.
  function Bytes(w: nat, n: nat): (s: seq<nat>)
    ensures |s| == n && forall i :: 0 <= i < n ==> s[i] < 256
  {
    if n == 0 then [] else [w % 256] + Bytes(w / 256, n - 1)
  }

  function Value(s: seq<nat>): nat {
    if s == [] then 0 else s[0] + 256 * Value(s[1..])
  }

  function Reversed(s: seq<nat>): (r: seq<nat>)
    ensures |r| == |s| && forall i :: 0 <= i < |s| ==> r[i] == s[|s| - 1 - i]
  {
    seq(|s|, i requires 0 <= i < |s| => s[|s| - 1 - i])
  }

  // src/mprof.c:373-388 for a word of 8 bytes.
  function Swapped(w: nat): nat {
    if w < Power(WORD) then Value(Reversed(Bytes(w, WORD))) else w
  }

  lemma {:induction false} ValueOfBytes(w: nat, n: nat)
    requires w < Power(n)
    ensures Value(Bytes(w, n)) == w
  {
    if n > 0 {
      ValueOfBytes(w / 256, n - 1);
    }
  }

  lemma {:induction false} BytesOfValue(s: seq<nat>)
    requires forall i :: 0 <= i < |s| ==> s[i] < 256
    ensures Bytes(Value(s), |s|) == s && Value(s) < Power(|s|)
  {
    if s != [] {
      BytesOfValue(s[1..]);
      assert Value(s) % 256 == s[0] && Value(s) / 256 == Value(s[1..]);
      assert s == [s[0]] + s[1..];
    }
  }

  // Swapping twice gives the word back.
  lemma SwappedTwice(w: nat)
    ensures Swapped(Swapped(w)) == w
  {
    if w < Power(WORD) {
      var s := Bytes(w, WORD);
      BytesOfValue(Reversed(s));
      assert Reversed(Reversed(s)) == s;
      ValueOfBytes(w, WORD);
    }
  }

  // The word that tells the byte orders apart does so.
  lemma SwappedOne()
    ensures Swapped(1) != 1
  {
  }
}
