// The profiling output file: the writer of src/profile.c and the reader of
// src/mprof.c.
module ProfileFile {
  import opened Memory
  import opened ByteOrder
  import opened CallSites
  import opened ProfileCounts

  // The file as a sequence of machine words and characters.
  datatype Item = Word(w: nat) | Char(c: char)

  const MAGIC := "MPTL"
  const VERSION := 10501
  const NUL := '\0'

  datatype Symbol = Symbol(addr: nat, name: string)

  // The part of a profhead that is written out.
  datatype Tables = Tables(bounds: Bounds, acounts: seq<nat>, atotals: nat, dcounts: seq<nat>, dtotals: nat,
                           data: seq<Data>, nodes: seq<Node>, tree: seq<nat>, symbols: seq<Symbol>)

  ghost predicate TablesOk(t: Tables) {
    && |t.acounts| == BIN_SIZE && |t.dcounts| == BIN_SIZE
    && (forall i :: 0 <= i < |t.data| ==> DataOk(t.data[i]))
    && InTree(t.nodes, t.tree)
    && (forall k :: 0 <= k < |t.nodes| && t.nodes[k].symbol.Some? ==> t.nodes[k].symbol.value < |t.symbols|)
    && (forall x :: 0 <= x < |t.symbols| ==> NUL !in t.symbols[x].name)
  }

  function Words(s: seq<nat>): (r: seq<Item>)
    ensures |r| == |s| && forall i :: 0 <= i < |s| ==> r[i] == Word(s[i])
  {
    seq(|s|, i requires 0 <= i < |s| => Word(s[i]))
  }

  function Chars(s: string): (r: seq<Item>)
    ensures |r| == |s| && forall i :: 0 <= i < |s| ==> r[i] == Char(s[i])
  {
    seq(|s|, i requires 0 <= i < |s| => Char(s[i]))
  }

  lemma WordsJoin(a: seq<nat>, b: seq<nat>)
    ensures Words(a + b) == Words(a) + Words(b)
  {
  }

  function SymbolOf(t: Tables, k: nat): Option<nat> {
    if 1 <= k <= |t.nodes| then t.nodes[k - 1].symbol else None
  }

  // The symbols of the first i nodes of the tree, in the order in which they
  // are first referred to.
  function Uses(t: Tables, i: nat): (r: seq<nat>)
    requires i <= |t.tree|
  {
    if i == 0 then []
    else
      var u := Uses(t, i - 1);
      match SymbolOf(t, t.tree[i - 1])
      case None => u
      case Some(x) => if x in u then u else u + [x]
  }

  // The place of x in u, counted from 1.
  function IndexIn(u: seq<nat>, x: nat): (r: nat)
    ensures r <= |u|
    ensures r == 0 <==> x !in u
    ensures r > 0 ==> u[r - 1] == x
  {
    if u == [] then 0
    else if u[|u| - 1] == x then |u|
    else IndexIn(u[..|u| - 1], x)
  }

  // The length of the names with their terminators.
  function NamesLength(symbols: seq<Symbol>, u: seq<nat>): nat {
    if u == [] then 0
    else
      var x := u[|u| - 1];
      NamesLength(symbols, u[..|u| - 1]) + (if x < |symbols| then |symbols[x].name| + 1 else 0)
  }

  function OffsetIn(symbols: seq<Symbol>, u: seq<nat>, x: nat): (r: nat)
    ensures r == 0 <==> x !in u
  {
    if u == [] then 0
    else if u[|u| - 1] == x then 1 + NamesLength(symbols, u[..|u| - 1])
    else OffsetIn(symbols, u[..|u| - 1], x)
  }

  function Names(symbols: seq<Symbol>, u: seq<nat>): (r: string)
    ensures |r| == NamesLength(symbols, u)
  {
    if u == [] then []
    else
      var x := u[|u| - 1];
      Names(symbols, u[..|u| - 1]) + (if x < |symbols| then symbols[x].name + [NUL] else [])
  }

  function Addresses(symbols: seq<Symbol>, u: seq<nat>): (r: seq<nat>)
    ensures |r| == |u|
    ensures forall i :: 0 <= i < |u| && u[i] < |symbols| ==> r[i] == symbols[u[i]].addr
  {
    seq(|u|, i requires 0 <= i < |u| => if u[i] < |symbols| then symbols[u[i]].addr else 0)
  }

  // What is written for node k: its index, its caller, its address, where its
  // symbol and the name of its symbol are, and its statistics.
  function NodeRecord(t: Tables, u: seq<nat>, k: nat): (r: seq<nat>)
    ensures |r| == 6
  {
    var s := SymbolOf(t, k);
    [k, Parent(t.nodes, k), Addr(t.nodes, k), if s.Some? then IndexIn(u, s.value) else 0,
     if s.Some? then OffsetIn(t.symbols, u, s.value) else 0, DataOf(t.nodes, k)]
  }

  function NodeRecords(t: Tables, u: seq<nat>, i: nat): (r: seq<nat>)
    requires i <= |t.tree|
    ensures |r| == 6 * i
  {
    if i == 0 then [] else NodeRecords(t, u, i - 1) + NodeRecord(t, u, t.tree[i - 1])
  }

  function DataRecord(d: Data, i: nat): (r: seq<nat>)
    requires DataOk(d)
    ensures |r| == 17
  {
    [i] + d.acount + d.atotal + d.dcount + d.dtotal
  }

  function DataRecords(data: seq<Data>, i: nat): (r: seq<nat>)
    requires i <= |data| && forall j :: 0 <= j < |data| ==> DataOk(data[j])
    ensures |r| == 17 * i
  {
    if i == 0 then [] else DataRecords(data, i - 1) + DataRecord(data[i - 1], i)
  }

  // The file from the symbols on, from the call sites on, from the statistics
  // on, and the whole file.
  ghost function SymbolPart(t: Tables): seq<Item> {
    var u := Uses(t, |t.tree|);
    Words([|u|]) + (Words(Addresses(t.symbols, u)) + (Words([1 + NamesLength(t.symbols, u)])
    + (Chars([NUL] + Names(t.symbols, u)) + Chars(MAGIC))))
  }

  ghost function SitePart(t: Tables): seq<Item> {
    Words([|t.tree|]) + (Words(NodeRecords(t, Uses(t, |t.tree|), |t.tree|)) + SymbolPart(t))
  }

  ghost function DataPart(t: Tables): seq<Item>
    requires forall i :: 0 <= i < |t.data| ==> DataOk(t.data[i])
  {
    Words([|t.data|]) + (Words(DataRecords(t.data, |t.data|)) + SitePart(t))
  }

  ghost function BinPart(t: Tables): seq<Item>
    requires forall i :: 0 <= i < |t.data| ==> DataOk(t.data[i])
  {
    Words([BIN_SIZE])
    + (Words(t.acounts) + (Words([t.atotals]) + (Words(t.dcounts) + (Words([t.dtotals]) + DataPart(t)))))
  }

  ghost function Written(t: Tables): seq<Item>
    requires TablesOk(t)
  {
    Chars(MAGIC)
    + (Words([1]) + (Words([VERSION]) + (Words([t.bounds.small, t.bounds.medium, t.bounds.large]) + BinPart(t))))
  }

  // ---- What the indices and offsets are good for ----

  // The string that starts at offset o.
  function CString(s: string, o: nat): string
    decreases |s| - o
  {
    if o >= |s| || s[o] == NUL then [] else [s[o]] + CString(s, o + 1)
  }

  lemma {:induction false} CStringAt(s: string, o: nat, name: string)
    requires o + |name| < |s| && s[o..o + |name|] == name && s[o + |name|] == NUL && NUL !in name
    ensures CString(s, o) == name
    decreases |name|
  {
    if name != [] {
      assert s[o] == name[0];
      assert s[o + 1..o + |name|] == name[1..];
      CStringAt(s, o + 1, name[1..]);
    }
  }

  // The offset of a symbol leads to its name.
  lemma {:induction false} OffsetLeadsToName(symbols: seq<Symbol>, u: seq<nat>, x: nat)
    requires x in u && x < |symbols| && NUL !in symbols[x].name
    ensures var s, o := [NUL] + Names(symbols, u), OffsetIn(symbols, u, x);
      && o + |symbols[x].name| < |s| && s[o..o + |symbols[x].name|] == symbols[x].name
      && s[o + |symbols[x].name|] == NUL
      && CString(s, o) == symbols[x].name
    decreases |u|
  {
    var s, o, n := [NUL] + Names(symbols, u), OffsetIn(symbols, u, x), symbols[x].name;
    var v := u[..|u| - 1];
    if u[|u| - 1] == x {
      assert s == [NUL] + Names(symbols, v) + n + [NUL];
    } else {
      OffsetLeadsToName(symbols, v, x);
      assert s[..1 + NamesLength(symbols, v)] == [NUL] + Names(symbols, v);
    }
    CStringAt(s, o, n);
  }

  // A symbol that has been seen keeps its place.
  lemma {:induction false} UsesStable(t: Tables, i: nat, k: nat, x: nat)
    requires i <= k <= |t.tree| && x in Uses(t, i)
    ensures x in Uses(t, k)
    ensures IndexIn(Uses(t, k), x) == IndexIn(Uses(t, i), x)
    ensures OffsetIn(t.symbols, Uses(t, k), x) == OffsetIn(t.symbols, Uses(t, i), x)
    decreases k
  {
    if i < k {
      UsesStable(t, i, k - 1, x);
      var u, v := Uses(t, k - 1), Uses(t, k);
      assert v == u || v[..|v| - 1] == u;
    }
  }

  // What is needed of the node at place i of the tree.
  predicate NodeOk(t: Tables, i: nat) {
    && i < |t.tree| && 1 <= t.tree[i] <= |t.nodes|
    && (SymbolOf(t, t.tree[i]).Some? ==> SymbolOf(t, t.tree[i]).value < |t.symbols|)
  }

  lemma NodesOk(t: Tables, i: nat)
    requires TablesOk(t) && i < |t.tree|
    ensures NodeOk(t, i)
  {
  }

  // The symbol of the next node, in the list of symbols seen so far.
  lemma NextUse(t: Tables, i: nat)
    requires NodeOk(t, i)
    ensures var s := SymbolOf(t, t.tree[i]);
      && (s.None? ==> Uses(t, i + 1) == Uses(t, i))
      && (s.Some? ==>
            && s.value < |t.symbols|
            && s.value in Uses(t, i + 1) && s.value in Uses(t, |t.tree|)
            && Uses(t, i + 1) == (if s.value in Uses(t, i) then Uses(t, i) else Uses(t, i) + [s.value]))
  {
    var s := SymbolOf(t, t.tree[i]);
    if s.Some? {
      UsesStable(t, i + 1, |t.tree|, s.value);
    }
  }

  lemma OneMore(symbols: seq<Symbol>, u: seq<nat>, x: nat)
    requires x !in u && x < |symbols|
    ensures NamesLength(symbols, u + [x]) == NamesLength(symbols, u) + |symbols[x].name| + 1
    ensures Names(symbols, u + [x]) == Names(symbols, u) + (symbols[x].name + [NUL])
    ensures Addresses(symbols, u + [x]) == Addresses(symbols, u) + [symbols[x].addr]
  {
    var v := u + [x];
    assert v[..|v| - 1] == u;
  }

  lemma PlaceOf(symbols: seq<Symbol>, u: seq<nat>, x: nat, y: nat)
    ensures IndexIn(u + [x], y) == if y == x then |u| + 1 else IndexIn(u, y)
    ensures OffsetIn(symbols, u + [x], y) == if y == x then 1 + NamesLength(symbols, u) else OffsetIn(symbols, u, y)
  {
    var v := u + [x];
    assert v[..|v| - 1] == u;
  }

  // The indices and offsets stored in the symbols themselves are those of the
  // symbols of u.
  ghost predicate Placed(symbols: seq<Symbol>, u: seq<nat>, index: seq<nat>, offset: seq<nat>) {
    && |index| == |offset| == |symbols|
    && forall x :: 0 <= x < |symbols| ==> index[x] == IndexIn(u, x) && offset[x] == OffsetIn(symbols, u, x)
  }

  lemma PlaceMore(symbols: seq<Symbol>, u: seq<nat>, index: seq<nat>, offset: seq<nat>, x: nat)
    requires Placed(symbols, u, index, offset) && x < |symbols|
    ensures index[x] == 0 <==> x !in u
    ensures x !in u ==>
      Placed(symbols, u + [x], index[x := |u| + 1], offset[x := 1 + NamesLength(symbols, u)])
  {
    forall y | 0 <= y < |symbols|
      ensures IndexIn(u + [x], y) == if y == x then |u| + 1 else index[y]
      ensures OffsetIn(symbols, u + [x], y) == if y == x then 1 + NamesLength(symbols, u) else offset[y]
    {
      PlaceOf(symbols, u, x, y);
    }
  }

  // The record of a node, from the values stored in its symbol.
  lemma RecordFrom(t: Tables, i: nat, index: seq<nat>, offset: seq<nat>)
    requires NodeOk(t, i) && Placed(t.symbols, Uses(t, i + 1), index, offset)
    ensures var k, s := t.tree[i], SymbolOf(t, t.tree[i]);
      && 1 <= k <= |t.nodes| && (s.Some? ==> s.value < |t.symbols|)
      && NodeRecord(t, Uses(t, |t.tree|), k)
         == [k, t.nodes[k - 1].parent, t.nodes[k - 1].addr]
            + (if s.Some? then [index[s.value], offset[s.value]] else [0, 0])
            + [t.nodes[k - 1].data]
  {
    var s := SymbolOf(t, t.tree[i]);
    if s.Some? {
      UseKept(t, i, s.value, Uses(t, |t.tree|), index, offset);
    }
  }

  lemma UseKept(t: Tables, i: nat, x: nat, u: seq<nat>, index: seq<nat>, offset: seq<nat>)
    requires NodeOk(t, i) && Placed(t.symbols, Uses(t, i + 1), index, offset)
    requires SymbolOf(t, t.tree[i]) == Some(x) && u == Uses(t, |t.tree|)
    ensures x < |t.symbols| && index[x] == IndexIn(u, x) && offset[x] == OffsetIn(t.symbols, u, x)
  {
    var v := Uses(t, i + 1);
    NextUse(t, i);
    UsesStable(t, i + 1, |t.tree|, x);
    PlacedAt(t.symbols, v, index, offset, x);
  }

  lemma PlacedAt(symbols: seq<Symbol>, u: seq<nat>, index: seq<nat>, offset: seq<nat>, x: nat)
    requires Placed(symbols, u, index, offset) && x < |symbols|
    ensures x < |index| && index[x] == IndexIn(u, x) && x < |offset| && offset[x] == OffsetIn(symbols, u, x)
  {
  }

  // src/profile.c:421-453
  method WriteNodes(t: Tables, index: array<nat>, offset: array<nat>) returns (out: seq<nat>, j: nat, l: nat)
    requires TablesOk(t) && index != offset && Placed(t.symbols, [], index[..], offset[..])
    modifies index, offset
    ensures var u := Uses(t, |t.tree|);
      && out == NodeRecords(t, u, |t.tree|) && j == |u| && l == 1 + NamesLength(t.symbols, u)
      && Placed(t.symbols, u, index[..], offset[..])
  {
    out, j, l := [], 0, 1;
    for i := 0 to |t.tree|
      invariant out == NodeRecords(t, Uses(t, |t.tree|), i)
      invariant j == |Uses(t, i)| && l == 1 + NamesLength(t.symbols, Uses(t, i))
      invariant Placed(t.symbols, Uses(t, i), index[..], offset[..])
    {
      NodesOk(t, i);
      var record: seq<nat>;
      record, j, l := WriteNode(t, i, j, l, index, offset);
      out := out + record;
    }
  }

  // src/profile.c:436-441: a symbol that is used for the first time gets the next
  // index and the next offset.
  method PlaceSymbol(symbols: seq<Symbol>, ghost u: seq<nat>, x: nat, j0: nat, l0: nat, index: array<nat>,
                     offset: array<nat>) returns (j: nat, l: nat)
    requires index != offset && Placed(symbols, u, index[..], offset[..]) && x < |symbols|
    requires j0 == |u| && l0 == 1 + NamesLength(symbols, u)
    modifies index, offset
    ensures var v := if x in u then u else u + [x];
      && j == |v| && l == 1 + NamesLength(symbols, v) && Placed(symbols, v, index[..], offset[..])
  {
    ghost var was: seq<nat>, from: seq<nat> := index[..], offset[..];
    PlaceMore(symbols, u, was, from, x);
    j, l := j0, l0;
    if index[x] == 0 {
      OneMore(symbols, u, x);
      j := j + 1;
      index[x], offset[x] := j, l;
      l := l + |symbols[x].name| + 1;
      assert index[..] == was[x := |u| + 1] && offset[..] == from[x := l0];
    }
  }

  // src/profile.c:426-453
  method WriteNode(t: Tables, i: nat, j0: nat, l0: nat, index: array<nat>, offset: array<nat>)
    returns (record: seq<nat>, j: nat, l: nat)
    requires NodeOk(t, i) && index != offset && Placed(t.symbols, Uses(t, i), index[..], offset[..])
    requires j0 == |Uses(t, i)| && l0 == 1 + NamesLength(t.symbols, Uses(t, i))
    modifies index, offset
    ensures record == NodeRecord(t, Uses(t, |t.tree|), t.tree[i])
    ensures j == |Uses(t, i + 1)| && l == 1 + NamesLength(t.symbols, Uses(t, i + 1))
    ensures Placed(t.symbols, Uses(t, i + 1), index[..], offset[..])
  {
    NextUse(t, i);
    var k := t.tree[i];
    var s := t.nodes[k - 1].symbol;
    j, l := j0, l0;
    record := [0, 0];
    if s.Some? {
      j, l := PlaceSymbol(t.symbols, Uses(t, i), s.value, j0, l0, index, offset);
      record := [index[s.value], offset[s.value]];
    }
    RecordFrom(t, i, index[..], offset[..]);
    record := [k, t.nodes[k - 1].parent, t.nodes[k - 1].addr] + record + [t.nodes[k - 1].data];
  }

  // The values of the symbols in done have been cleared.
  ghost predicate Cleared(full: seq<nat>, done: seq<nat>, now: seq<nat>) {
    |now| == |full| && forall x :: 0 <= x < |full| ==> now[x] == if x in done then 0 else full[x]
  }

  lemma ClearMore(full: seq<nat>, done: seq<nat>, now: seq<nat>, x: nat)
    requires Cleared(full, done, now) && x < |full| && full[x] != 0
    ensures now[x] == 0 <==> x in done
    ensures Cleared(full, done + [x], now[x := 0])
  {
  }

  // The values are set for exactly the symbols that are used.
  ghost predicate SetFor(u: seq<nat>, values: seq<nat>) {
    forall x :: 0 <= x < |values| ==> (values[x] != 0 <==> x in u)
  }

  lemma AllCleared(u: seq<nat>, full: seq<nat>, now: seq<nat>)
    requires SetFor(u, full) && Cleared(full, u, now)
    ensures forall x :: 0 <= x < |now| ==> now[x] == 0
  {
  }

  // src/profile.c:457-464: every address once, and the indices are cleared.
  method WriteAddresses(t: Tables, index: array<nat>) returns (out: seq<nat>)
    requires TablesOk(t) && index.Length == |t.symbols| && SetFor(Uses(t, |t.tree|), index[..])
    modifies index
    ensures out == Addresses(t.symbols, Uses(t, |t.tree|))
    ensures Cleared(old(index[..]), Uses(t, |t.tree|), index[..])
  {
    ghost var full := index[..];
    out := [];
    for i := 0 to |t.tree|
      invariant out == Addresses(t.symbols, Uses(t, i))
      invariant Cleared(full, Uses(t, i), index[..])
    {
      NodesOk(t, i);
      out := WriteAddress(t, i, index, full, out);
    }
  }

  method WriteAddress(t: Tables, i: nat, index: array<nat>, ghost full: seq<nat>, before: seq<nat>)
    returns (out: seq<nat>)
    requires NodeOk(t, i) && index.Length == |t.symbols| && SetFor(Uses(t, |t.tree|), full)
    requires Cleared(full, Uses(t, i), index[..]) && before == Addresses(t.symbols, Uses(t, i))
    modifies index
    ensures Cleared(full, Uses(t, i + 1), index[..]) && out == Addresses(t.symbols, Uses(t, i + 1))
  {
    var x := TakeUse(t, i, index, full);
    out := before;
    if x.Some? {
      OneMore(t.symbols, Uses(t, i), x.value);
      out := before + [t.symbols[x.value].addr];
    }
  }

  // src/profile.c:469-477: every name once, and the offsets are cleared.
  method WriteNames(t: Tables, offset: array<nat>) returns (out: string)
    requires TablesOk(t) && offset.Length == |t.symbols| && SetFor(Uses(t, |t.tree|), offset[..])
    modifies offset
    ensures out == Names(t.symbols, Uses(t, |t.tree|))
    ensures Cleared(old(offset[..]), Uses(t, |t.tree|), offset[..])
  {
    ghost var full := offset[..];
    out := [];
    for i := 0 to |t.tree|
      invariant out == Names(t.symbols, Uses(t, i))
      invariant Cleared(full, Uses(t, i), offset[..])
    {
      NodesOk(t, i);
      out := WriteName(t, i, offset, full, out);
    }
  }

  method WriteName(t: Tables, i: nat, offset: array<nat>, ghost full: seq<nat>, before: string) returns (out: string)
    requires NodeOk(t, i) && offset.Length == |t.symbols| && SetFor(Uses(t, |t.tree|), full)
    requires Cleared(full, Uses(t, i), offset[..]) && before == Names(t.symbols, Uses(t, i))
    modifies offset
    ensures Cleared(full, Uses(t, i + 1), offset[..]) && out == Names(t.symbols, Uses(t, i + 1))
  {
    var x := TakeUse(t, i, offset, full);
    out := before;
    if x.Some? {
      OneMore(t.symbols, Uses(t, i), x.value);
      out := before + (t.symbols[x.value].name + [NUL]);
    }
  }

  // The symbol of node i of the tree if its value is still set; it is cleared.
  method TakeUse(t: Tables, i: nat, values: array<nat>, ghost full: seq<nat>) returns (r: Option<nat>)
    requires NodeOk(t, i) && values.Length == |t.symbols| && SetFor(Uses(t, |t.tree|), full)
    requires Cleared(full, Uses(t, i), values[..])
    modifies values
    ensures Cleared(full, Uses(t, i + 1), values[..])
    ensures r.None? ==> Uses(t, i + 1) == Uses(t, i)
    ensures r.Some? ==>
      r.value !in Uses(t, i) && r.value < |t.symbols| && Uses(t, i + 1) == Uses(t, i) + [r.value]
  {
    NextUse(t, i);
    var s := t.nodes[t.tree[i] - 1].symbol;
    r := None;
    if s.Some? {
      ghost var was: seq<nat> := values[..];
      ClearMore(full, Uses(t, i), was, s.value);
      if values[s.value] != 0 {
        values[s.value] := 0;
        assert values[..] == was[s.value := 0];
        r := s;
      }
    }
  }

  lemma PlacedSets(symbols: seq<Symbol>, u: seq<nat>, index: seq<nat>, offset: seq<nat>)
    requires Placed(symbols, u, index, offset)
    ensures SetFor(u, index) && SetFor(u, offset)
  {
  }

  // src/profile.c:409-418
  method WriteData(data: seq<Data>) returns (out: seq<nat>)
    requires forall j :: 0 <= j < |data| ==> DataOk(data[j])
    ensures out == DataRecords(data, |data|)
  {
    out := [];
    for i := 0 to |data|
      invariant out == DataRecords(data, i)
    {
      var d := data[i];
      out := out + ([i + 1] + d.acount + d.atotal + d.dcount + d.dtotal);
    }
  }

  // src/profile.c:390-478, once the file is open: the temporary indices and
  // offsets are zero before and after, so that the file can be written again.
  method WriteProfile(t: Tables, index: array<nat>, offset: array<nat>) returns (out: seq<Item>)
    requires TablesOk(t) && index != offset && index.Length == offset.Length == |t.symbols|
    requires forall x :: 0 <= x < |t.symbols| ==> index[..][x] == 0 && offset[..][x] == 0
    modifies index, offset
    ensures out == Written(t)
    ensures forall x :: 0 <= x < |t.symbols| ==> index[..][x] == 0 && offset[..][x] == 0
  {
    var records, j, l := WriteNodes(t, index, offset);
    PlacedSets(t.symbols, Uses(t, |t.tree|), index[..], offset[..]);
    var addrs := WriteUsed(t, j, index);
    var names := WriteUsedNames(t, l, offset);
    var data := WriteData(t.data);
    out := Chars(MAGIC) + (Words([1]) + (Words([VERSION]) + (Words([t.bounds.small, t.bounds.medium, t.bounds.large])
      + (Words([BIN_SIZE]) + (Words(t.acounts) + (Words([t.atotals]) + (Words(t.dcounts) + (Words([t.dtotals])
      + (Words([|t.data|]) + (Words(data) + (Words([|t.tree|]) + (Words(records)
      + (Words([j]) + (Words(addrs) + (Words([l]) + (Chars([NUL] + names) + Chars(MAGIC)))))))))))))))));
  }

  // What is written for a profiler in any state that it can reach.
  method SaveProfile(p: Profiler, symbols: seq<Symbol>, index: array<nat>, offset: array<nat>) returns (out: seq<Item>)
    requires p.Valid() && index != offset && index.Length == offset.Length == |symbols|
    requires forall a :: a in p.sites.symbols ==> p.sites.symbols[a] < |symbols|
    requires forall x :: 0 <= x < |symbols| ==> NUL !in symbols[x].name
    requires forall x :: 0 <= x < |symbols| ==> index[..][x] == 0 && offset[..][x] == 0
    modifies index, offset
    ensures var t := Tables(p.bounds, old(p.acounts[..]), p.atotals, old(p.dcounts[..]), p.dtotals, p.data,
                            p.sites.nodes, p.sites.tree, symbols);
      TablesOk(t) && out == Written(t)
    ensures forall x :: 0 <= x < |symbols| ==> index[..][x] == 0 && offset[..][x] == 0
  {
    var t := Tables(p.bounds, p.acounts[..], p.atotals, p.dcounts[..], p.dtotals, p.data, p.sites.nodes, p.sites.tree,
                    symbols);
    out := WriteProfile(t, index, offset);
  }

  // src/profile.c:457 and 469: nothing to write if no symbol is used.
  method WriteUsed(t: Tables, j: nat, index: array<nat>) returns (out: seq<nat>)
    requires TablesOk(t) && index.Length == |t.symbols| && SetFor(Uses(t, |t.tree|), index[..])
    requires j == |Uses(t, |t.tree|)|
    modifies index
    ensures out == Addresses(t.symbols, Uses(t, |t.tree|))
    ensures forall x :: 0 <= x < index.Length ==> index[..][x] == 0
  {
    out := [];
    if j > 0 {
      out := WriteAddresses(t, index);
      AllCleared(Uses(t, |t.tree|), old(index[..]), index[..]);
    }
  }

  method WriteUsedNames(t: Tables, l: nat, offset: array<nat>) returns (out: string)
    requires TablesOk(t) && offset.Length == |t.symbols| && SetFor(Uses(t, |t.tree|), offset[..])
    requires l == 1 + NamesLength(t.symbols, Uses(t, |t.tree|))
    modifies offset
    ensures out == Names(t.symbols, Uses(t, |t.tree|))
    ensures forall x :: 0 <= x < offset.Length ==> offset[..][x] == 0
  {
    out := [];
    UsedNames(t, |t.tree|);
    if l > 1 {
      out := WriteNames(t, offset);
      AllCleared(Uses(t, |t.tree|), old(offset[..]), offset[..]);
    }
  }

  // Every symbol that is used adds to the length of the names.
  lemma {:induction false} UsedNames(t: Tables, i: nat)
    requires TablesOk(t) && i <= |t.tree|
    ensures NamesLength(t.symbols, Uses(t, i)) == 0 ==> Uses(t, i) == []
    decreases i
  {
    if i > 0 {
      UsedNames(t, i - 1);
      NodesOk(t, i - 1);
      NextUse(t, i - 1);
      var s := SymbolOf(t, t.tree[i - 1]);
      if s.Some? && s.value !in Uses(t, i - 1) {
        OneMore(t.symbols, Uses(t, i - 1), s.value);
      }
    }
  }

  // ---- The reader ----

  datatype Site = Site(parent: nat, addr: nat, symbol: nat, name: nat, data: nat)

  datatype Profiled = Profiled(bounds: Bounds, acounts: seq<nat>, dcounts: seq<nat>, acount: nat, atotal: nat,
                               dcount: nat, dtotal: nat, data: seq<Data>, nodes: seq<Site>, order: seq<nat>,
                               addrs: seq<nat>, symbols: string)

  // A file as a machine of the other byte order sees it, or as one of the same
  // order does.
  function Converted(f: seq<Item>, swap: bool): (r: seq<Item>)
    ensures |r| == |f| && forall i :: 0 <= i < |f| ==> r[i] == InOrder(f[i], swap)
  {
    seq(|f|, i requires 0 <= i < |f| => InOrder(f[i], swap))
  }

  function InOrder(x: Item, swap: bool): Item {
    if swap && x.Word? then Word(Swapped(x.w)) else x
  }

  lemma ConvertedBack(f: seq<Item>, swap: bool)
    ensures Converted(Converted(f, swap), swap) == f
  {
    forall i | 0 <= i < |f|
      ensures InOrder(InOrder(f[i], swap), swap) == f[i]
    {
      if f[i].Word? {
        SwappedTwice(f[i].w);
      }
    }
  }

  // src/mprof.c:396-413 for n words.
  function TakeWords(f: seq<Item>, n: nat, swap: bool): (r: Option<seq<nat>>)
    ensures r.Some? ==> |r.value| == n <= |f|
  {
    if n <= |f| && forall i :: 0 <= i < n ==> f[i].Word? then
      Some(seq(n, i requires 0 <= i < n && f[i].Word? => InOrder(f[i], swap).w))
    else None
  }

  function TakeChars(f: seq<Item>, n: nat): (r: Option<string>)
    ensures r.Some? ==> |r.value| == n <= |f|
  {
    if n <= |f| && forall i :: 0 <= i < n ==> f[i].Char? then
      Some(seq(n, i requires 0 <= i < n && f[i].Char? => f[i].c))
    else None
  }

  lemma TakenWords(f: seq<Item>, swap: bool, ws: seq<nat>, rest: seq<Item>, n: nat)
    requires Converted(f, swap) == Words(ws) + rest && n <= |ws|
    ensures TakeWords(f, n, swap) == Some(ws[..n])
    ensures Converted(f[n..], swap) == Words(ws[n..]) + rest
  {
    var g := Converted(f, swap);
    assert forall i :: 0 <= i < n ==> g[i] == Word(ws[i]) && InOrder(f[i], swap) == g[i];
    var r := TakeWords(f, n, swap);
    assert r.Some? && r.value == ws[..n];
    assert Converted(f[n..], swap) == g[n..];
  }

  lemma TakenChars(f: seq<Item>, swap: bool, s: string, rest: seq<Item>)
    requires Converted(f, swap) == Chars(s) + rest
    ensures TakeChars(f, |s|) == Some(s)
    ensures Converted(f[|s|..], swap) == rest
  {
    var g := Converted(f, swap);
    assert forall i :: 0 <= i < |s| ==> g[i] == Char(s[i]) && InOrder(f[i], swap) == g[i];
    var r := TakeChars(f, |s|);
    assert r.Some? && r.value == s;
    assert Converted(f[|s|..], swap) == g[|s|..];
  }

  // getentry for n words; a file that is too short ends the program.
  method GetWords(f: seq<Item>, n: nat, swap: bool, ghost ws: seq<nat>, ghost tail: seq<Item>)
    returns (r: Option<seq<nat>>, rest: seq<Item>)
    ensures r.Some? ==> |r.value| == n
    ensures n == |ws| && Converted(f, swap) == Words(ws) + tail ==> r == Some(ws) && Converted(rest, swap) == tail
  {
    r := TakeWords(f, n, swap);
    rest := if r.Some? then f[n..] else [];
    if n == |ws| && Converted(f, swap) == Words(ws) + tail {
      TakenWords(f, swap, ws, tail, n);
      assert ws[..n] == ws && Words(ws[n..]) + tail == tail;
    }
  }

  method GetChars(f: seq<Item>, n: nat, ghost swap: bool, ghost s: string, ghost tail: seq<Item>)
    returns (r: Option<string>, rest: seq<Item>)
    ensures r.Some? ==> |r.value| == n
    ensures n == |s| && Converted(f, swap) == Chars(s) + tail ==> r == Some(s) && Converted(rest, swap) == tail
  {
    r := TakeChars(f, n);
    rest := if r.Some? then f[n..] else [];
    if n == |s| && Converted(f, swap) == Chars(s) + tail {
      TakenChars(f, swap, s, tail);
    }
  }

  lemma {:induction false} DataRecordAt(data: seq<Data>, n: nat, i: nat)
    requires i < n <= |data| && forall j :: 0 <= j < |data| ==> DataOk(data[j])
    ensures DataRecords(data, n)[17 * i..17 * i + 17] == DataRecord(data[i], i + 1)
    decreases n
  {
    if i < n - 1 {
      DataRecordAt(data, n - 1, i);
      assert DataRecords(data, n)[17 * i..17 * i + 17] == DataRecords(data, n - 1)[17 * i..17 * i + 17];
    }
  }

  // The record at the front of what is left.
  lemma SplitOff(all: seq<nat>, i: nat, n: nat, tail: seq<Item>)
    requires i + n <= |all|
    ensures Words(all[i..]) + tail == Words(all[i..i + n]) + (Words(all[i + n..]) + tail)
  {
    assert all[i..] == all[i..i + n] + all[i + n..];
    WordsJoin(all[i..i + n], all[i + n..]);
  }

  function DataFrom(w: seq<nat>): Data
    requires |w| == 17
  {
    Data(w[1..5], w[5..9], w[9..13], w[13..17])
  }

  lemma DataBack(d: Data, i: nat)
    requires DataOk(d)
    ensures DataRecord(d, i)[0] == i && DataFrom(DataRecord(d, i)) == d
  {
  }

  // getentry for one of several records in a row.
  method GetRecord(f: seq<Item>, n: nat, swap: bool, ghost good: bool, ghost all: seq<nat>, ghost at: nat,
                   ghost tail: seq<Item>)
    returns (r: Option<seq<nat>>, rest: seq<Item>)
    requires good ==> at + n <= |all| && Converted(f, swap) == Words(all[at..]) + tail
    ensures r.Some? ==> |r.value| == n
    ensures good ==> r == Some(all[at..at + n]) && Converted(rest, swap) == Words(all[at + n..]) + tail
  {
    if good {
      SplitOff(all, at, n, tail);
    }
    ghost var ws := if good then all[at..at + n] else [];
    r, rest := GetWords(f, n, swap, ws, if good then Words(all[at + n..]) + tail else []);
  }

  // src/mprof.c:514-522
  method ReadData(f: seq<Item>, size: nat, swap: bool, ghost good: bool, ghost data: seq<Data>,
                  ghost tail: seq<Item>)
    returns (r: Option<seq<Data>>, rest: seq<Item>)
    requires good ==> size == |data| && forall j :: 0 <= j < size ==> DataOk(data[j])
    requires good ==> Converted(f, swap) == Words(DataRecords(data, size)) + tail
    ensures good ==> r == Some(data) && Converted(rest, swap) == tail
  {
    ghost var all := if good then DataRecords(data, size) else [];
    rest := f;
    var table := seq(size, i => NoData());
    assert all[0..] == all;
    for i := 0 to size
      invariant |table| == size && (good ==> Converted(rest, swap) == Words(all[17 * i..]) + tail)
      invariant good ==> forall j :: 0 <= j < i ==> table[j] == data[j]
    {
      var w;
      w, rest := GetRecord(rest, 17, swap, good, all, 17 * i, tail);
      if good {
        DataRecordAt(data, size, i);
        DataBack(data[i], i + 1);
      }
      if w.None? || !(1 <= w.value[0] <= size) {
        return None, [];
      }
      table := table[w.value[0] - 1 := DataFrom(w.value)];
    }
    assert good ==> Words(all[17 * size..]) + tail == tail;
    r := Some(table);
    assert good ==> table == data;
  }

  function SiteFrom(w: seq<nat>): Site
    requires |w| == 6
  {
    Site(w[1], w[2], w[3], w[4], w[5])
  }

  lemma {:induction false} NodeRecordAt(t: Tables, u: seq<nat>, n: nat, i: nat)
    requires i < n <= |t.tree|
    ensures NodeRecords(t, u, n)[6 * i..6 * i + 6] == NodeRecord(t, u, t.tree[i])
    decreases n
  {
    if i < n - 1 {
      NodeRecordAt(t, u, n - 1, i);
      assert NodeRecords(t, u, n)[6 * i..6 * i + 6] == NodeRecords(t, u, n - 1)[6 * i..6 * i + 6];
    }
  }

  // What the reader should find in the place of node k.
  function SiteOf(t: Tables, k: nat): Site {
    SiteFrom(NodeRecord(t, Uses(t, |t.tree|), k))
  }

  // src/mprof.c:535-547; the second result is the order in which the nodes are
  // put into the tree.
  method ReadSites(f: seq<Item>, size: nat, swap: bool, ghost good: bool, ghost t: Tables, ghost tail: seq<Item>)
    returns (r: Option<seq<Site>>, order: seq<nat>, rest: seq<Item>)
    requires good ==> size == |t.tree| && InTree(t.nodes, t.tree)
    requires good ==> Converted(f, swap) == Words(NodeRecords(t, Uses(t, |t.tree|), size)) + tail
    ensures good ==> r.Some? && |r.value| == size && order == t.tree && Converted(rest, swap) == tail
    ensures good ==> forall k :: 1 <= k <= size ==> r.value[k - 1] == SiteOf(t, k)
  {
    ghost var all := if good then NodeRecords(t, Uses(t, |t.tree|), size) else [];
    rest, order := f, [];
    var table := seq(size, i => Site(0, 0, 0, 0, 0));
    assert all[0..] == all;
    for i := 0 to size
      invariant |table| == size && (good ==> Converted(rest, swap) == Words(all[6 * i..]) + tail)
      invariant good ==> order == t.tree[..i]
      invariant good ==> forall j :: 0 <= j < i ==> table[t.tree[j] - 1] == SiteOf(t, t.tree[j])
    {
      var w;
      w, rest := GetRecord(rest, 6, swap, good, all, 6 * i, tail);
      if good {
        NodeRecordAt(t, Uses(t, |t.tree|), size, i);
        assert w == Some(NodeRecord(t, Uses(t, |t.tree|), t.tree[i])) && w.value[0] == t.tree[i];
      }
      if w.None? || !(1 <= w.value[0] <= size) {
        return None, [], [];
      }
      table := table[w.value[0] - 1 := SiteFrom(w.value)];
      order := order + [w.value[0]];
    }
    assert good ==> Words(all[6 * size..]) + tail == tail;
    r := Some(table);
    if good {
      forall k | 1 <= k <= size
        ensures table[k - 1] == SiteOf(t, k)
      {
        assert k in t.tree;
      }
    }
  }

  // src/mprof.c:438-451: whether the file has the other byte order.
  method ReadOrder(f: seq<Item>, ghost good: bool, ghost tail: seq<Item>, ghost foreign: bool)
    returns (swap: Option<bool>, rest: seq<Item>)
    requires good ==> Converted(f, foreign) == Chars(MAGIC) + (Words([1]) + tail)
    ensures good ==> swap == Some(foreign) && Converted(rest, foreign) == tail
  {
    var m, i;
    m, rest := GetChars(f, 4, foreign, MAGIC, Words([1]) + tail);
    if m != Some(MAGIC) {
      return None, [];
    }
    if good {
      FirstWord(rest, foreign, tail);
    }
    ghost var w := if foreign then Swapped(1) else 1;
    ghost var after := if good then rest[1..] else [];
    i, rest := GetWords(rest, 1, false, [w], after);
    if good {
      assert Converted(rest, false) == rest;
    }
    if i.None? {
      return None, [];
    }
    swap := Some(i.value[0] != 1);
  }

  // src/mprof.c:438-471
  method ReadHeader(f: seq<Item>, ghost t: Tables, ghost foreign: bool)
    returns (r: Option<Bounds>, rest: seq<Item>, swap: bool)
    ensures TablesOk(t) && f == Converted(Written(t), foreign) ==>
      r == Some(t.bounds) && swap == foreign && Converted(rest, swap) == BinPart(t)
  {
    ghost var good := TablesOk(t) && f == Converted(Written(t), foreign);
    ghost var b := [t.bounds.small, t.bounds.medium, t.bounds.large];
    ghost var t3 := if good then BinPart(t) else [];
    ghost var t2 := Words(b) + t3;
    ghost var t1 := Words([VERSION]) + t2;
    if good {
      ConvertedBack(Written(t), foreign);
    }
    var order;
    order, rest := ReadOrder(f, good, t1, foreign);
    if order.None? {
      return None, [], false;
    }
    swap := order.value;
    r, rest := ReadBounds(rest, swap, good, b, t3);
  }

  // src/mprof.c:458-471
  method ReadBounds(f: seq<Item>, swap: bool, ghost good: bool, ghost b: seq<nat>, ghost tail: seq<Item>)
    returns (r: Option<Bounds>, rest: seq<Item>)
    requires |b| == 3 && (good ==> Converted(f, swap) == Words([VERSION]) + (Words(b) + tail))
    ensures good ==> r == Some(Bounds(b[0], b[1], b[2])) && Converted(rest, swap) == tail
  {
    var v, w;
    v, rest := GetWords(f, 1, swap, [VERSION], Words(b) + tail);
    if v.None? || v.value[0] < 10300 || v.value[0] / 100 > VERSION / 100 {
      return None, [];
    }
    w, rest := GetWords(rest, 3, swap, b, tail);
    if w.None? {
      return None, [];
    }
    r := Some(Bounds(w.value[0], w.value[1], w.value[2]));
  }

  // The word that tells the byte orders apart, read without conversion.
  lemma FirstWord(f: seq<Item>, foreign: bool, tail: seq<Item>)
    requires Converted(f, foreign) == Words([1]) + tail
    ensures f != [] && f == Words([if foreign then Swapped(1) else 1]) + f[1..]
    ensures Converted(f, false) == f && Converted(f[1..], foreign) == tail
    ensures Swapped(1) != 1
  {
    SwappedOne();
    var g := Converted(f, foreign);
    assert g[0] == Word(1) && g[1..] == tail && Converted(f[1..], foreign) == g[1..];
    assert InOrder(f[0], foreign) == Word(1);
    if foreign {
      SwappedTwice(f[0].w);
    }
    assert f == [f[0]] + f[1..];
  }

  datatype Bins = Bins(acounts: seq<nat>, atotals: nat, dcounts: seq<nat>, dtotals: nat)

  // src/mprof.c:474-486
  method ReadBins(f: seq<Item>, swap: bool, ghost t: Tables) returns (r: Option<Bins>, rest: seq<Item>)
    ensures TablesOk(t) && Converted(f, swap) == BinPart(t) ==>
      r == Some(Bins(t.acounts, t.atotals, t.dcounts, t.dtotals)) && Converted(rest, swap) == DataPart(t)
  {
    ghost var good := TablesOk(t) && Converted(f, swap) == BinPart(t);
    ghost var t5 := if good then DataPart(t) else [];
    ghost var t4 := Words([t.dtotals]) + t5;
    ghost var t3 := Words(t.dcounts) + t4;
    ghost var t2 := Words([t.atotals]) + t3;
    ghost var t1 := Words(t.acounts) + t2;
    var n, a, x, d, y;
    n, rest := GetWords(f, 1, swap, [BIN_SIZE], t1);
    if n.None? {
      return None, [];
    }
    var size := n.value[0];
    if size == 0 {
      return Some(Bins([], 0, [], 0)), rest;
    }
    a, rest := GetWords(rest, size, swap, t.acounts, t2);
    x, rest := GetWords(rest, 1, swap, [t.atotals], t3);
    d, rest := GetWords(rest, size, swap, t.dcounts, t4);
    y, rest := GetWords(rest, 1, swap, [t.dtotals], t5);
    if a.None? || x.None? || d.None? || y.None? {
      return None, [];
    }
    r := Some(Bins(a.value, x.value[0], d.value, y.value[0]));
  }

  // src/mprof.c:551-578
  method ReadSymbols(f: seq<Item>, swap: bool, ghost t: Tables) returns (r: Option<(seq<nat>, string)>)
    ensures Converted(f, swap) == SymbolPart(t) ==>
      var u := Uses(t, |t.tree|); r == Some((Addresses(t.symbols, u), [NUL] + Names(t.symbols, u)))
  {
    ghost var u := Uses(t, |t.tree|);
    ghost var t3 := Chars([NUL] + Names(t.symbols, u)) + Chars(MAGIC);
    ghost var t2 := Words([1 + NamesLength(t.symbols, u)]) + t3;
    ghost var t1 := Words(Addresses(t.symbols, u)) + t2;
    assert Chars(MAGIC) + [] == Chars(MAGIC);
    var rest, n, a, l, c, m;
    n, rest := GetWords(f, 1, swap, [|u|], t1);
    if n.None? {
      return None;
    }
    a, rest := GetWords(rest, n.value[0], swap, Addresses(t.symbols, u), t2);
    l, rest := GetWords(rest, 1, swap, [1 + NamesLength(t.symbols, u)], t3);
    if a.None? || l.None? {
      return None;
    }
    c, rest := GetChars(rest, l.value[0], swap, [NUL] + Names(t.symbols, u), Chars(MAGIC));
    m, rest := GetChars(rest, 4, swap, MAGIC, []);
    if c.None? || m != Some(MAGIC) {
      return None;
    }
    r := Some((a.value, c.value));
  }

  // Node k as it was, its symbol resolved through the two tables.
  ghost predicate SiteBack(t: Tables, p: Profiled, k: nat)
    requires 1 <= k <= |p.nodes|
  {
    var site, s := p.nodes[k - 1], SymbolOf(t, k);
    && site.parent == Parent(t.nodes, k) && site.addr == Addr(t.nodes, k) && site.data == DataOf(t.nodes, k)
    && (s.None? ==> site.symbol == 0 && site.name == 0)
    && (s.Some? ==>
          && s.value < |t.symbols| && 1 <= site.symbol <= |p.addrs|
          && site.symbol == IndexIn(Uses(t, |t.tree|), s.value)
          && p.addrs[site.symbol - 1] == t.symbols[s.value].addr
          && CString(p.symbols, site.name) == t.symbols[s.value].name)
  }

  ghost predicate ReadsBack(t: Tables, p: Profiled) {
    && p.bounds == t.bounds && p.acounts == t.acounts && p.dcounts == t.dcounts && p.data == t.data
    && p.acount == Sum(t.acounts) && p.atotal == BinBytes(t.acounts, t.atotals)
    && p.dcount == Sum(t.dcounts) && p.dtotal == BinBytes(t.dcounts, t.dtotals)
    && p.order == t.tree && |p.nodes| == |t.nodes|
    && forall k :: 1 <= k <= |p.nodes| ==> SiteBack(t, p, k)
  }

  lemma SymbolUsed(t: Tables, j: nat)
    requires j < |t.tree| && SymbolOf(t, t.tree[j]).Some?
    ensures SymbolOf(t, t.tree[j]).value in Uses(t, |t.tree|)
  {
    UsesStable(t, j + 1, |t.tree|, SymbolOf(t, t.tree[j]).value);
  }

  lemma SiteResolves(t: Tables, p: Profiled, k: nat)
    requires TablesOk(t) && 1 <= k <= |p.nodes| == |t.nodes| && p.nodes[k - 1] == SiteOf(t, k)
    requires p.addrs == Addresses(t.symbols, Uses(t, |t.tree|))
    requires p.symbols == [NUL] + Names(t.symbols, Uses(t, |t.tree|))
    ensures SiteBack(t, p, k)
  {
    var s, u := SymbolOf(t, k), Uses(t, |t.tree|);
    if s.Some? {
      assert k in t.tree;
      var j :| 0 <= j < |t.tree| && t.tree[j] == k;
      SymbolUsed(t, j);
      OffsetLeadsToName(t.symbols, u, s.value);
    }
  }

  // src/mprof.c:421-579: whatever the file, and whatever was written; if the
  // file is what the writer makes of t, on a machine of either byte order, t is
  // read back from it.
  method ReadFile(f: seq<Item>, ghost t: Tables, ghost foreign: bool) returns (r: Option<Profiled>)
    ensures TablesOk(t) && f == Converted(Written(t), foreign) ==> r.Some? && ReadsBack(t, r.value)
  {
    ghost var good := TablesOk(t) && f == Converted(Written(t), foreign);
    var b, rest, swap := ReadHeader(f, t, foreign);
    if b.None? {
      return None;
    }
    var bins;
    bins, rest := ReadBins(rest, swap, t);
    if bins.None? {
      return None;
    }
    var acount, atotal := ReadTotals(bins.value.acounts, bins.value.atotals);
    var dcount, dtotal := ReadTotals(bins.value.dcounts, bins.value.dtotals);
    var data, sites, order, symbols := ReadTables(rest, swap, good, t);
    if data.None? || sites.None? || symbols.None? {
      return None;
    }
    var p := Profiled(b.value, bins.value.acounts, bins.value.dcounts, acount, atotal, dcount, dtotal, data.value,
                      sites.value, order, symbols.value.0, symbols.value.1);
    if good {
      forall k | 1 <= k <= |p.nodes|
        ensures SiteBack(t, p, k)
      {
        SiteResolves(t, p, k);
      }
    }
    r := Some(p);
  }

  method ReadTables(f: seq<Item>, swap: bool, ghost good: bool, ghost t: Tables)
    returns (data: Option<seq<Data>>, sites: Option<seq<Site>>, order: seq<nat>, symbols: Option<(seq<nat>, string)>)
    requires good ==> TablesOk(t) && Converted(f, swap) == DataPart(t)
    ensures good ==> data == Some(t.data) && order == t.tree
    ensures good ==>
      && sites.Some? && |sites.value| == |t.nodes|
      && forall k :: 1 <= k <= |t.nodes| ==> sites.value[k - 1] == SiteOf(t, k)
    ensures good ==>
      var u := Uses(t, |t.tree|); symbols == Some((Addresses(t.symbols, u), [NUL] + Names(t.symbols, u)))
  {
    data, sites, order, symbols := None, None, [], None;
    ghost var part := if good then SitePart(t) else [];
    var n, rest := GetWords(f, 1, swap, [|t.data|], if good then Words(DataRecords(t.data, |t.data|)) + part else []);
    if n.None? {
      return;
    }
    data, rest := ReadData(rest, n.value[0], swap, good, t.data, part);
    ghost var u := Uses(t, |t.tree|);
    n, rest := GetWords(rest, 1, swap, [|t.tree|], Words(NodeRecords(t, u, |t.tree|)) + SymbolPart(t));
    if n.None? {
      return;
    }
    sites, order, rest := ReadSites(rest, n.value[0], swap, good, t, SymbolPart(t));
    symbols := ReadSymbols(rest, swap, t);
  }
}
