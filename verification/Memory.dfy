// The byte routines of src/memory.c.  Memory is one array of bytes and an
// address is an index into it; the routines work a word at a time where the
// alignment allows it.
module Memory {

  type byte = x: int | 0 <= x < 256

  datatype Option<+T> = None | Some(value: T)

  ghost predicate Distinct(s: seq<int>) {
    forall i, j :: 0 <= i < j < |s| ==> s[i] != s[j]
  }

  // m with l bytes from t on replaced by c.
  function Filled(m: seq<byte>, t: int, c: byte, l: int): (r: seq<byte>)
    ensures |r| == |m|
    ensures forall i {:trigger r[i]} :: 0 <= i < |m| ==> r[i] == if t <= i < t + l then c else m[i]
  {
    seq(|m|, i requires 0 <= i < |m| => if t <= i < t + l then c else m[i])
  }

  // m with the l bytes from t on replaced by the l bytes from s on.
  function Copied(m: seq<byte>, t: nat, s: nat, l: nat): (r: seq<byte>)
    requires t + l <= |m| && s + l <= |m|
    ensures |r| == |m|
    ensures forall i {:trigger r[i]} :: 0 <= i < |m| ==> r[i] == if t <= i < t + l then m[i - t + s] else m[i]
  {
    seq(|m|, i requires 0 <= i < |m| => if t <= i < t + l then m[i - t + s] else m[i])
  }

  predicate AllBytes(m: seq<byte>, t: nat, c: byte, l: nat)
    requires t + l <= |m|
  {
    forall i :: t <= i < t + l ==> m[i] == c
  }

  method StoreWord(mem: array<byte>, w: nat, b: seq<byte>)
    requires w + 8 <= mem.Length && |b| == 8
    modifies mem
    ensures forall i {:trigger mem[i]} :: 0 <= i < mem.Length ==>
      mem[i] == if w <= i < w + 8 then b[i - w] else old(mem[i])
  {
    forall i | 0 <= i < 8 {
      mem[w + i] := b[i];
    }
  }

  // The byte loops of src/memory.c:919-926 and 957-962.
  method CheckBytes(mem: array<byte>, t: nat, c: byte, l: nat) returns (r: Option<nat>)
    requires t + l <= mem.Length
    ensures r.None? ==> AllBytes(mem[..], t, c, l)
    ensures r.Some? ==> t <= r.value < t + l && mem[r.value] != c && AllBytes(mem[..], t, c, r.value - t)
  {
    var p := t;
    while p < t + l
      invariant t <= p <= t + l
      invariant forall i :: t <= i < p ==> mem[i] == c
    {
      if mem[p] != c {
        return Some(p);
      }
      p := p + 1;
    }
    return None;
  }

  // src/memory.c:931-952: n whole words.
  method CheckWords(mem: array<byte>, t: nat, c: byte, n: nat) returns (r: Option<nat>)
    requires t + 8 * n <= mem.Length
    ensures r.None? ==> AllBytes(mem[..], t, c, 8 * n)
    ensures r.Some? ==> t <= r.value < t + 8 * n && mem[r.value] != c && AllBytes(mem[..], t, c, r.value - t)
  {
    var b: seq<byte> := [];
    var i := 0;
    while i < 8
      invariant 0 <= i == |b| <= 8
      invariant forall k :: 0 <= k < i ==> b[k] == c
    {
      b := b + [c];
      i := i + 1;
    }
    var w := t;
    while w < t + 8 * n
      invariant t <= w <= t + 8 * n && (w - t) % 8 == 0
      invariant AllBytes(mem[..], t, c, w - t)
    {
      if mem[w..w + 8] != b {
        r := CheckBytes(mem, w, c, 8);
        if r.None? {
          FilledWord(mem[..], w, b, c);
          assert false;
        }
        return;
      }
      WordFilled(mem[..], w, b, c);
      w := w + 8;
    }
    return None;
  }

  // src/memory.c:902-963
  method MemCheck(mem: array<byte>, t: nat, c: byte, l: nat) returns (r: Option<nat>)
    requires t + l <= mem.Length
    ensures r.None? <==> AllBytes(mem[..], t, c, l)
    ensures r.Some? ==> t <= r.value < t + l && mem[r.value] != c && AllBytes(mem[..], t, c, r.value - t)
  {
    var n := 0;
    if l > 64 {
      n := t % 8;
      if n > 0 {
        n := 8 - n;
        if n > l {
          n := l;
        }
        r := CheckBytes(mem, t, c, n);
        if r.Some? {
          return;
        }
      }
      var k := (l - n) / 8;
      if k > 0 {
        r := CheckWords(mem, t + n, c, k);
        if r.Some? {
          return;
        }
        n := n + 8 * k;
      }
    }
    r := CheckBytes(mem, t + n, c, l - n);
  }

  lemma WordFilled(m: seq<byte>, w: nat, b: seq<byte>, c: byte)
    requires w + 8 <= |m| && |b| == 8
    requires forall i :: 0 <= i < 8 ==> b[i] == c
    requires m[w..w + 8] == b
    ensures AllBytes(m, w, c, 8)
  {
    forall i | w <= i < w + 8
      ensures m[i] == c
    {
      assert m[w..w + 8][i - w] == b[i - w];
    }
  }

  lemma FilledWord(m: seq<byte>, w: nat, b: seq<byte>, c: byte)
    requires w + 8 <= |m| && |b| == 8
    requires forall i :: 0 <= i < 8 ==> b[i] == c
    requires AllBytes(m, w, c, 8)
    ensures m[w..w + 8] == b
  {
  }

  // Equally aligned, different addresses are at least a word apart, so no
  // word store can overwrite part of the word it was loaded from.
  lemma AlignedApart(s: nat, t: nat)
    requires s % 8 == t % 8 && s != t
    ensures s + 8 <= t || t + 8 <= s
  {
  }

  // src/memory.c:984-993 and 1180-1191: n bytes lead up to a word boundary
  // common to both blocks, then k whole words fit.
  method SplitUp(s: nat, t: nat, l: nat) returns (n: nat, k: nat)
    requires s != t
    ensures n + 8 * k <= l
    ensures k > 0 ==> s + 8 <= t || t + 8 <= s
  {
    n, k := 0, 0;
    if s % 8 == t % 8 && l > 64 {
      AlignedApart(s, t);
      n := s % 8;
      if n > 0 {
        n := 8 - n;
        if n > l {
          n := l;
        }
      }
      k := (l - n) / 8;
    }
  }

  // src/memory.c:1135-1145: the same from the ends of the blocks.
  method SplitDown(s: nat, t: nat, l: nat) returns (n: nat, k: nat)
    requires s != t && l <= s && l <= t
    ensures n + 8 * k <= l
    ensures k > 0 ==> s + 8 <= t || t + 8 <= s
  {
    n, k := 0, 0;
    if s % 8 == t % 8 && l > 64 {
      AlignedApart(s, t);
      n := s % 8;
      if n > l {
        n := l;
      }
      k := (l - n) / 8;
    }
  }

  // The ranges of length l at t and at s hold the same bytes.
  predicate SameBytes(m: seq<byte>, t: nat, s: nat, l: nat)
    requires t + l <= |m| && s + l <= |m|
  {
    forall i, j {:trigger m[i], m[j]} :: t <= i < t + l && j == i - t + s ==> m[i] == m[j]
  }

  // src/memory.c:1008-1020: locate the byte that made two words differ.
  method FirstInWord(mem: array<byte>, t: nat, s: nat) returns (r: Option<nat>)
    requires t + 8 <= mem.Length && s + 8 <= mem.Length
    requires mem[t..t + 8] != mem[s..s + 8]
    ensures r.Some? && t <= r.value < t + 8 && mem[r.value] != mem[r.value - t + s]
    ensures SameBytes(mem[..], t, s, r.value - t)
  {
    var p, n := t, 0;
    while n < 8
      invariant 0 <= n <= 8 && p == t + n
      invariant SameBytes(mem[..], t, s, n)
    {
      if mem[p] != mem[s + n] {
        return Some(p);
      }
      p, n := p + 1, n + 1;
    }
    SameWord(mem[..], t, s);
    assert false;
  }

  // The byte loops of src/memory.c:994-1002 and 1029-1036.
  method CompareBytes(mem: array<byte>, t0: nat, s0: nat, l: nat) returns (r: Option<nat>)
    requires t0 + l <= mem.Length && s0 + l <= mem.Length
    ensures r.None? ==> SameBytes(mem[..], t0, s0, l)
    ensures r.Some? ==> t0 <= r.value < t0 + l && mem[r.value] != mem[r.value - t0 + s0]
                        && SameBytes(mem[..], t0, s0, r.value - t0)
  {
    var t, s, n := t0, s0, l;
    while n > 0
      invariant 0 <= n <= l && t == t0 + (l - n) && s == s0 + (l - n)
      invariant SameBytes(mem[..], t0, s0, l - n)
    {
      if mem[t] != mem[s] {
        return Some(t);
      }
      s, t, n := s + 1, t + 1, n - 1;
    }
    return None;
  }

  method DifferInWord(mem: array<byte>, t0: nat, s0: nat, t: nat, s: nat) returns (r: Option<nat>)
    requires t0 <= t && t - t0 == s - s0 && t + 8 <= mem.Length && s + 8 <= mem.Length
    requires SameBytes(mem[..], t0, s0, t - t0) && mem[t..t + 8] != mem[s..s + 8]
    ensures r.Some? && t <= r.value < t + 8 && mem[r.value] != mem[r.value - t0 + s0]
    ensures SameBytes(mem[..], t0, s0, r.value - t0)
  {
    r := FirstInWord(mem, t, s);
    SameJoin(mem[..], t0, s0, t - t0, r.value - t);
  }

  // src/memory.c:1003-1026: whole words only; k is the number of words.
  method CompareWords(mem: array<byte>, t0: nat, s0: nat, k: nat) returns (r: Option<nat>)
    requires t0 + 8 * k <= mem.Length && s0 + 8 * k <= mem.Length
    ensures r.None? ==> SameBytes(mem[..], t0, s0, 8 * k)
    ensures r.Some? ==> t0 <= r.value < t0 + 8 * k && mem[r.value] != mem[r.value - t0 + s0]
                        && SameBytes(mem[..], t0, s0, r.value - t0)
  {
    var t, s, l := t0, s0, 8 * k;
    ghost var i, m := 0, mem[..];
    while l >= 8
      invariant 0 <= i <= k && l == 8 * (k - i) && t == t0 + 8 * i && s == s0 + 8 * i && m == mem[..]
      invariant SameBytes(m, t0, s0, 8 * i)
    {
      if mem[t..t + 8] != mem[s..s + 8] {
        r := DifferInWord(mem, t0, s0, t, s);
        return;
      }
      assert m[t..t + 8] == m[s..s + 8];
      WordSame(m, t, s);
      SameJoin(m, t0, s0, 8 * i, 8);
      s, t, l, i := s + 8, t + 8, l - 8, i + 1;
    }
    return None;
  }

  lemma SameJoin(m: seq<byte>, t: nat, s: nat, j: nat, k: nat)
    requires t + j + k <= |m| && s + j + k <= |m|
    requires SameBytes(m, t, s, j) && SameBytes(m, t + j, s + j, k)
    ensures SameBytes(m, t, s, j + k)
  {
  }

  // src/memory.c:971-1039
  method MemCompare(mem: array<byte>, t: nat, s: nat, l: nat) returns (r: Option<nat>)
    requires t + l <= mem.Length && s + l <= mem.Length
    ensures r.None? <==> SameBytes(mem[..], t, s, l)
    ensures r.Some? ==> t <= r.value < t + l && mem[r.value] != mem[r.value - t + s]
                        && SameBytes(mem[..], t, s, r.value - t)
  {
    if s == t || l == 0 {
      return None;
    }
    var n, k := SplitUp(s, t, l);
    r := CompareBytes(mem, t, s, n);
    if r.Some? {
      return;
    }
    r := CompareWords(mem, t + n, s + n, k);
    SameJoin(mem[..], t, s, n, if r.Some? then r.value - (t + n) else 8 * k);
    if r.Some? {
      return;
    }
    n := n + 8 * k;
    r := CompareBytes(mem, t + n, s + n, l - n);
    SameJoin(mem[..], t, s, n, if r.Some? then r.value - (t + n) else l - n);
  }

  lemma WordSame(m: seq<byte>, t: nat, s: nat)
    requires t + 8 <= |m| && s + 8 <= |m| && m[t..t + 8] == m[s..s + 8]
    ensures SameBytes(m, t, s, 8)
  {
    forall i, j | t <= i < t + 8 && j == i - t + s
      ensures m[i] == m[j]
    {
      assert m[t..t + 8][i - t] == m[s..s + 8][i - t];
    }
  }

  lemma SameWord(m: seq<byte>, t: nat, s: nat)
    requires t + 8 <= |m| && s + 8 <= |m| && SameBytes(m, t, s, 8)
    ensures m[t..t + 8] == m[s..s + 8]
  {
    forall i {:trigger m[t..t + 8][i]} | 0 <= i < 8
      ensures m[t..t + 8][i] == m[s..s + 8][i]
    {
      assert m[t + i] == m[s + i];
    }
  }

  // The test of src/memory.c:1051-1052: the first byte, and then the others.
  method Occurs(mem: array<byte>, t: nat, s: nat, m: nat) returns (here: bool)
    requires t + m <= mem.Length && s + m <= mem.Length && m > 0
    ensures here <==> SameBytes(mem[..], t, s, m)
  {
    assert mem[..][t] == mem[t] && mem[..][s] == mem[s];
    if mem[t] != mem[s] {
      return false;
    }
    if m == 1 {
      return true;
    }
    var d := MemCompare(mem, t + 1, s + 1, m - 1);
    here := d.None?;
    SameRest(mem[..], t, s, m);
    if d.Some? {
      assert mem[..][d.value] != mem[..][d.value - t + s];
    }
  }

  lemma SameRest(b: seq<byte>, t: nat, s: nat, m: nat)
    requires t + m <= |b| && s + m <= |b| && m > 0
    ensures SameBytes(b, t, s, m) <==> b[t] == b[s] && SameBytes(b, t + 1, s + 1, m - 1)
  {
  }

  // src/memory.c:1046-1059
  method MemFind(mem: array<byte>, t0: nat, l0: nat, s: nat, m: nat) returns (r: Option<nat>)
    requires t0 + l0 <= mem.Length && s + m <= mem.Length
    ensures r.Some? ==> 0 < m && t0 <= r.value <= t0 + l0 - m && SameBytes(mem[..], r.value, s, m)
    ensures r.Some? ==> forall k :: t0 <= k < r.value ==> !SameBytes(mem[..], k, s, m)
    ensures r.None? ==> m == 0 || forall k :: t0 <= k <= t0 + l0 - m ==> !SameBytes(mem[..], k, s, m)
  {
    var t, l := t0, l0;
    if m > 0 {
      while l >= m
        invariant t + l == t0 + l0 && t0 <= t && 0 <= l
        invariant l + 1 >= m || l == l0
        invariant forall k :: t0 <= k < t && k + m <= mem.Length ==> !SameBytes(mem[..], k, s, m)
      {
        var here := Occurs(mem, t, s, m);
        if here {
          return Some(t);
        }
        t, l := t + 1, l - 1;
      }
    }
    return None;
  }

  // src/memory.c:1066-1109
  method MemSet(mem: array<byte>, t0: nat, c: byte, l0: nat)
    requires t0 + l0 <= mem.Length
    modifies mem
    ensures mem[..] == Filled(old(mem[..]), t0, c, l0)
  {
    var t, l := t0, l0;
    if l > 64 {
      var n := t % 8;
      if n > 0 {
        n := 8 - n;
        if n > l {
          n := l;
        }
        var p := t;
        t := t + n;
        while p < t
          invariant t0 <= p <= t
          invariant forall i {:trigger mem[i]} :: 0 <= i < mem.Length ==>
            mem[i] == if t0 <= i < p then c else old(mem[i])
        {
          mem[p] := c;
          p := p + 1;
        }
        l := l - n;
      }
      if l == 0 {
        return;
      }
      n := l / 8;
      if n > 0 {
        var b: seq<byte> := [];
        var i := 0;
        while i < 8
          invariant 0 <= i == |b| <= 8
          invariant forall k :: 0 <= k < i ==> b[k] == c
          invariant forall i {:trigger mem[i]} :: 0 <= i < mem.Length ==>
            mem[i] == if t0 <= i < t then c else old(mem[i])
        {
          b := b + [c];
          i := i + 1;
        }
        var w := t;
        t := t + n * 8;
        while w < t
          invariant t0 <= w <= t && (t - w) % 8 == 0
          invariant forall i {:trigger mem[i]} :: 0 <= i < mem.Length ==>
            mem[i] == if t0 <= i < w then c else old(mem[i])
        {
          StoreWord(mem, w, b);
          w := w + 8;
        }
        l := l - n * 8;
      }
    }
    if l == 0 {
      return;
    }
    var p := t;
    t := t + l;
    while p < t
      invariant t0 <= p <= t
      invariant forall i {:trigger mem[i]} :: 0 <= i < mem.Length ==> mem[i] == if t0 <= i < p then c else old(mem[i])
    {
      mem[p] := c;
      p := p + 1;
    }
  }

  // src/memory.c:1116-1222.  The source and the destination may overlap in
  // either direction.
  method MemCopy(mem: array<byte>, t: nat, s: nat, l: nat)
    requires t + l <= mem.Length && s + l <= mem.Length
    modifies mem
    ensures mem[..] == Copied(old(mem[..]), t, s, l)
  {
    if s == t || l == 0 {
      return;
    }
    if s < t && s + l > t {
      CopyFromEnd(mem, t, s, l);
    } else {
      CopyFromStart(mem, t, s, l);
    }
  }

  // The bytes of the destination below k hold the source's old bytes, the
  // rest of memory is as it was.
  ghost predicate CopiedTo(mem: array<byte>, was: seq<byte>, t0: nat, s0: nat, k: nat)
    requires t0 <= k <= mem.Length == |was| && s0 + (k - t0) <= mem.Length
    reads mem
  {
    forall i {:trigger mem[i]} :: 0 <= i < mem.Length ==> mem[i] == if t0 <= i < k then was[i - t0 + s0] else was[i]
  }

  // The bytes of the destination in k..t0+l0 are in place.
  ghost predicate CopiedFrom(mem: array<byte>, was: seq<byte>, t0: nat, s0: nat, l0: nat, k: nat)
    requires t0 + l0 <= mem.Length == |was| && s0 + l0 <= mem.Length && t0 <= k
    reads mem
  {
    forall i {:trigger mem[i]} :: 0 <= i < mem.Length ==>
      mem[i] == if k <= i < t0 + l0 then was[i - t0 + s0] else was[i]
  }

  // The byte loops of src/memory.c:1147-1154 and 1167-1173: with l bytes left to
  // copy, the last n of them.
  method BytesDown(mem: array<byte>, ghost was: seq<byte>, t0: nat, s0: nat, ghost l0: nat, l: nat, n: nat)
    requires t0 + l0 <= mem.Length == |was| && s0 < t0 && n <= l <= l0
    requires CopiedFrom(mem, was, t0, s0, l0, t0 + l)
    modifies mem
    ensures CopiedFrom(mem, was, t0, s0, l0, t0 + l - n)
  {
    var k := 0;
    while k < n
      invariant 0 <= k <= n
      invariant CopiedFrom(mem, was, t0, s0, l0, t0 + l - k)
    {
      k := k + 1;
      mem[t0 + l - k] := mem[s0 + l - k];
    }
  }

  // The word loop of src/memory.c:1157-1163: with l bytes left to copy, n words.
  method WordsDown(mem: array<byte>, ghost was: seq<byte>, t0: nat, s0: nat, ghost l0: nat, l: nat, n: nat)
    requires t0 + l0 <= mem.Length == |was| && 8 * n <= l <= l0 && (n > 0 ==> s0 + 8 <= t0)
    requires s0 < t0 && CopiedFrom(mem, was, t0, s0, l0, t0 + l)
    modifies mem
    ensures CopiedFrom(mem, was, t0, s0, l0, t0 + l - 8 * n)
  {
    var k := 0;
    while k < n
      invariant 0 <= k <= n
      invariant CopiedFrom(mem, was, t0, s0, l0, t0 + l - 8 * k)
    {
      k := k + 1;
      StoreWord(mem, t0 + l - 8 * k, mem[s0 + l - 8 * k..s0 + l - 8 * k + 8]);
    }
  }

  // src/memory.c:1128-1171
  method CopyFromEnd(mem: array<byte>, t: nat, s: nat, l: nat)
    requires t + l <= mem.Length && s < t
    modifies mem
    ensures mem[..] == Copied(old(mem[..]), t, s, l)
  {
    ghost var was := mem[..];
    var n, k := SplitDown(s + l, t + l, l);
    BytesDown(mem, was, t, s, l, l, n);
    WordsDown(mem, was, t, s, l, l - n, k);
    BytesDown(mem, was, t, s, l, l - n - 8 * k, l - n - 8 * k);
  }

  // The byte loops of src/memory.c:1192-1199 and 1212-1219: with j bytes
  // copied, the next n.
  method BytesUp(mem: array<byte>, ghost was: seq<byte>, t0: nat, s0: nat, j: nat, n: nat)
    requires t0 + j + n <= mem.Length == |was| && s0 + j + n <= mem.Length
    requires t0 <= s0 || s0 + j + n <= t0
    requires CopiedTo(mem, was, t0, s0, t0 + j)
    modifies mem
    ensures CopiedTo(mem, was, t0, s0, t0 + j + n)
  {
    var k := 0;
    while k < n
      invariant 0 <= k <= n
      invariant CopiedTo(mem, was, t0, s0, t0 + j + k)
    {
      mem[t0 + j + k] := mem[s0 + j + k];
      k := k + 1;
    }
  }

  // The word loop of src/memory.c:1202-1208: with j bytes copied, n words.
  method WordsUp(mem: array<byte>, ghost was: seq<byte>, t0: nat, s0: nat, j: nat, n: nat)
    requires t0 + j + 8 * n <= mem.Length == |was| && s0 + j + 8 * n <= mem.Length
    requires n > 0 ==> t0 + 8 <= s0 || s0 + j + 8 * n <= t0
    requires CopiedTo(mem, was, t0, s0, t0 + j)
    modifies mem
    ensures CopiedTo(mem, was, t0, s0, t0 + j + 8 * n)
  {
    var k := 0;
    while k < n
      invariant 0 <= k <= n
      invariant CopiedTo(mem, was, t0, s0, t0 + j + 8 * k)
    {
      StoreWord(mem, t0 + j + 8 * k, mem[s0 + j + 8 * k..s0 + j + 8 * k + 8]);
      k := k + 1;
    }
  }

  // src/memory.c:1173-1220
  method CopyFromStart(mem: array<byte>, t: nat, s: nat, l: nat)
    requires t + l <= mem.Length && s + l <= mem.Length
    requires s != t && (t < s || s + l <= t)
    modifies mem
    ensures mem[..] == Copied(old(mem[..]), t, s, l)
  {
    ghost var was := mem[..];
    var n, k := SplitUp(s, t, l);
    BytesUp(mem, was, t, s, 0, n);
    WordsUp(mem, was, t, s, n, k);
    BytesUp(mem, was, t, s, n + 8 * k, l - (n + 8 * k));
    assert t + (n + 8 * k) + (l - (n + 8 * k)) == t + l;
  }
}
