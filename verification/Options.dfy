// The options string: src/mpatrol.c builds it, src/option.c takes it apart.
module Options {
  import opened Memory

  predicate IsSpace(c: char) {
    c == ' ' || c == '\t' || c == '\n' || c == '\U{0B}' || c == '\U{0C}' || c == '\r'
  }

  const QUOTE := '"'

  // An option with its value, if it has one.
  datatype Setting = Setting(keyword: string, value: Option<string>)

  // ---- The printer ----

  function ValuePart(x: Setting): string {
    match x.value
    case None => []
    case Some(v) => "=" + if ' ' in v then [QUOTE] + v + [QUOTE] else v
  }

  // src/mpatrol.c:395-400
  function Printed(x: Setting): string {
    x.keyword + ValuePart(x)
  }

  // One option after the other, with a space between them.
  function Built(xs: seq<Setting>): string {
    if xs == [] then []
    else Printed(xs[0]) + if |xs| == 1 then [] else " " + Built(xs[1..])
  }

  lemma Regroup(a: string, b: string, c: string)
    ensures (a + b) + c == a + (b + c)
  {
  }

  lemma BuiltOne(xs: seq<Setting>)
    requires |xs| == 1
    ensures Built(xs) == Printed(xs[0])
  {
  }

  lemma BuiltFirst(x: Setting, ys: seq<Setting>)
    requires ys != []
    ensures Built([x] + ys) == Printed(x) + (" " + Built(ys))
  {
    assert ([x] + ys)[1..] == ys;
  }

  lemma {:induction false} BuiltMore(xs: seq<Setting>, x: Setting)
    ensures Built(xs + [x]) == if xs == [] then Printed(x) else Built(xs) + (" " + Printed(x))
    decreases |xs|
  {
    BuiltOne([x]);
    if xs == [] {
      assert [] + [x] == [x];
    } else {
      var ys, added := xs[1..], " " + Printed(x);
      assert [xs[0]] + ys == xs && xs + [x] == [xs[0]] + (ys + [x]);
      BuiltFirst(xs[0], ys + [x]);
      BuiltMore(ys, x);
      if ys == [] {
        BuiltOne(xs);
      } else {
        BuiltFirst(xs[0], ys);
        Regroup(" ", Built(ys), added);
        Regroup(Printed(xs[0]), " " + Built(ys), added);
      }
    }
  }

  // The value of the variable: the options that were there before, and those
  // that were added.
  function Value(inherited: string, xs: seq<Setting>): string {
    if inherited == [] then Built(xs)
    else if xs == [] then inherited
    else inherited + (" " + Built(xs))
  }

  lemma ValueMore(inherited: string, xs: seq<Setting>, x: Setting)
    ensures Value(inherited, xs + [x])
            == Value(inherited, xs) + ((if inherited == [] && xs == [] then [] else " ") + Printed(x))
  {
    BuiltMore(xs, x);
    if inherited == [] && xs == [] {
      assert [] + ([] + Printed(x)) == Printed(x);
    } else if inherited != [] && xs != [] {
      Regroup(inherited, " " + Built(xs), " " + Printed(x));
      Regroup(" ", Built(xs), " " + Printed(x));
    }
  }

  class OptionBuffer {
    const size: nat
    const name: string
    var inherited: string
    var options: string
    var optlen: nat
    ghost var settings: seq<Setting>

    ghost predicate Valid()
      reads this
    {
      optlen == |options| < size && options == name + Value(inherited, settings)
    }

    // src/mpatrol.c:414-415: the name of the variable with the equals sign.
    constructor (size: nat, name: string)
      requires |name| < size
      ensures Valid() && settings == [] && inherited == [] && this.size == size && this.name == name
    {
      this.size, this.name, inherited, settings := size, name, [], [];
      options, optlen := name, |name|;
    }

    // src/mpatrol.c:416-425: what the variable held before is copied, with its
    // terminator, and without a test of its length.  The result tells whether
    // that writes behind the buffer.
    method Inherit(t: string) returns (overrun: bool)
      requires Valid() && settings == [] && inherited == []
      modifies this
      ensures overrun <==> |name + t| + 1 > size
      ensures !overrun ==> Valid() && inherited == t && settings == []
      ensures overrun ==> options == old(options) && optlen == old(optlen)
    {
      overrun := optlen + |t| + 1 > size;
      if !overrun {
        options := options[..optlen] + t;
        optlen := optlen + |t|;
        inherited := t;
      }
    }

    // src/mpatrol.c:374-402; first is set for the first option if there were
    // none before.  The result is false where the program gives up.
    method AddOption(o: string, v: Option<string>, first: bool) returns (ok: bool)
      requires Valid() && (first <==> inherited == [] && settings == [])
      modifies this
      ensures Valid()
      ensures inherited == old(inherited)
      ensures ok ==> settings == old(settings) + [Setting(o, v)]
      ensures !ok ==> options == old(options) && settings == old(settings)
      ensures !ok ==> |name + Value(inherited, settings + [Setting(o, v)])| >= size
    {
      var q := false;
      var l := |o| + if first then 0 else 1;
      if v.Some? {
        l := l + |v.value| + 1;
        if ' ' in v.value {
          l := l + 2;
          q := true;
        }
      }
      var text := Format(o, v, q, first);
      assert |text| == l;
      ValueMore(inherited, settings, Setting(o, v));
      Regroup(name, Value(inherited, settings), text);
      if optlen + l >= size {
        return false;
      }
      assert options[..optlen] == options;
      options := options[..optlen] + text;
      optlen := optlen + l;
      settings := settings + [Setting(o, v)];
      ok := true;
    }
  }

  // src/mpatrol.c:395-400
  method Format(o: string, v: Option<string>, q: bool, first: bool) returns (text: string)
    requires q <==> v.Some? && ' ' in v.value
    ensures text == (if first then [] else " ") + Printed(Setting(o, v))
    ensures |text| == |o| + (if first then 0 else 1) + (if v.Some? then |v.value| + 1 else 0) + (if q then 2 else 0)
  {
    if q {
      text := o + ("=" + ([QUOTE] + v.value + [QUOTE]));
    } else if v.Some? {
      text := o + ("=" + v.value);
    } else {
      text := o + [];
    }
    text := (if first then [] else " ") + text;
  }

  // ---- The tokeniser ----

  // A word without its quotes, and what follows it.
  function Scan(r: string, quoted: bool, stop: bool): (w: (string, string))
    ensures |w.0| + |w.1| <= |r|
    decreases |r|
  {
    if r == [] || (!quoted && IsSpace(r[0])) || (stop && r[0] == '=') then ([], r)
    else if r[0] == QUOTE then Scan(r[1..], !quoted, stop)
    else
      var (w, t) := Scan(r[1..], quoted, stop);
      ([r[0]] + w, t)
  }

  function SkipSpace(r: string): (t: string)
    ensures |t| <= |r| && (t != [] ==> !IsSpace(t[0]))
    decreases |r|
  {
    if r == [] || !IsSpace(r[0]) then r else SkipSpace(r[1..])
  }

  // The rest of the string after the value, if there is a value.
  function ScanValue(r: string): (w: (string, string))
    ensures |w.1| <= |r| && (r != [] ==> |w.1| < |r|)
  {
    if r == [] then ([], [])
    else if r[0] != '=' then ([], r[1..])
    else
      var (a, t) := Scan(r[1..], false, false);
      (a, if t == [] then [] else t[1..])
  }

  // The keywords with their values, in the order in which they are acted upon.
  function Tokens(r: string): seq<(string, string)>
    decreases |r|
  {
    var s := SkipSpace(r);
    if s == [] then []
    else
      var (o, t) := if s[0] == '=' then ([], s) else Scan(s, false, true);
      assert s[0] != '=' ==> |t| < |s|;
      var (a, u) := ScanValue(t);
      (if o == [] then [] else [(o, a)]) + Tokens(u)
  }

  // ---- Printing and parsing ----

  predicate GoodKeyword(o: string) {
    o != [] && QUOTE !in o && '=' !in o && forall c :: c in o ==> !IsSpace(c)
  }

  // The value comes back as it was: it has no quotes, and it has a space if it
  // has any white space.
  predicate GoodValue(v: Option<string>) {
    v.None? || (QUOTE !in v.value && (' ' in v.value || forall c :: c in v.value ==> !IsSpace(c)))
  }

  function Meant(xs: seq<Setting>): seq<(string, string)> {
    if xs == [] then []
    else [(xs[0].keyword, if xs[0].value.Some? then xs[0].value.value else [])] + Meant(xs[1..])
  }

  ghost predicate Follows(rest: string) {
    rest == [] || rest[0] == ' '
  }

  lemma {:induction false} ScanPlain(w: string, rest: string, stop: bool)
    requires QUOTE !in w && (stop ==> '=' !in w) && forall c :: c in w ==> !IsSpace(c)
    requires rest == [] || IsSpace(rest[0]) || (stop && rest[0] == '=')
    ensures Scan(w + rest, false, stop) == (w, rest)
    decreases |w|
  {
    if w == [] {
      assert w + rest == rest;
    } else {
      assert w[0] in w;
      ScanPlain(w[1..], rest, stop);
      assert (w + rest)[1..] == w[1..] + rest && [w[0]] + w[1..] == w;
    }
  }

  lemma {:induction false} ScanQuoted(v: string, rest: string)
    requires QUOTE !in v && Follows(rest)
    ensures Scan(v + [QUOTE] + rest, true, false) == (v, rest)
    decreases |v|
  {
    var r := v + [QUOTE] + rest;
    if v == [] {
      assert r[1..] == rest;
    } else {
      assert v[0] in v;
      ScanQuoted(v[1..], rest);
      assert r[1..] == v[1..] + [QUOTE] + rest && [v[0]] + v[1..] == v;
    }
  }

  // What the tokeniser makes of a keyword and what follows it.
  lemma KeywordComesBack(o: string, tail: string)
    requires GoodKeyword(o) && (tail == [] || tail[0] == ' ' || tail[0] == '=')
    ensures Tokens(o + tail) == [(o, ScanValue(tail).0)] + Tokens(ScanValue(tail).1)
  {
    assert o[0] in o;
    ScanPlain(o, tail, true);
  }

  // What Scan reads behind the equals sign.
  lemma BehindEquals(tail: string, r: string, v: string, rest: string)
    requires tail == "=" + r && Scan(r, false, false) == (v, rest)
    ensures ScanValue(tail) == (v, if rest == [] then [] else rest[1..])
  {
    assert tail[1..] == r;
  }

  lemma QuotedComesBack(v: string, rest: string)
    requires QUOTE !in v && Follows(rest)
    ensures Scan([QUOTE] + v + [QUOTE] + rest, false, false) == (v, rest)
  {
    var r := [QUOTE] + v + [QUOTE] + rest;
    ScanQuoted(v, rest);
    assert r[1..] == v + [QUOTE] + rest;
  }

  lemma ValueComesBack(x: Setting, rest: string)
    requires GoodValue(x.value) && Follows(rest)
    ensures ScanValue(ValuePart(x) + rest)
            == (if x.value.Some? then x.value.value else [], if rest == [] then [] else rest[1..])
  {
    var tail := ValuePart(x) + rest;
    if x.value.None? {
      assert tail == rest;
    } else {
      var v := x.value.value;
      if ' ' in v {
        QuotedComesBack(v, rest);
        assert tail == "=" + ([QUOTE] + v + [QUOTE] + rest);
        BehindEquals(tail, [QUOTE] + v + [QUOTE] + rest, v, rest);
      } else {
        ScanPlain(v, rest, false);
        assert tail == "=" + (v + rest);
        BehindEquals(tail, v + rest, v, rest);
      }
    }
  }

  // A good option comes back, and parsing goes on behind the next space.
  lemma GoodComesBack(x: Setting, rest: string)
    requires GoodKeyword(x.keyword) && GoodValue(x.value) && Follows(rest)
    ensures Tokens(Printed(x) + rest)
            == [(x.keyword, if x.value.Some? then x.value.value else [])] + Tokens(if rest == [] then [] else rest[1..])
  {
    var tail := ValuePart(x) + rest;
    assert x.keyword + ValuePart(x) + rest == x.keyword + tail;
    ValueComesBack(x, rest);
    KeywordComesBack(x.keyword, tail);
  }

  lemma FollowsBuilt(xs: seq<Setting>)
    requires xs != []
    ensures var rest := if |xs| == 1 then [] else " " + Built(xs[1..]);
      Built(xs) == Printed(xs[0]) + rest && Follows(rest) && (if rest == [] then [] else rest[1..]) == Built(xs[1..])
  {
    if |xs| == 1 {
      assert xs[1..] == [];
    } else {
      assert (" " + Built(xs[1..]))[1..] == Built(xs[1..]);
    }
  }

  lemma {:induction false} GoodListComesBack(xs: seq<Setting>)
    requires forall x :: x in xs ==> GoodKeyword(x.keyword) && GoodValue(x.value)
    ensures Tokens(Built(xs)) == Meant(xs)
    decreases |xs|
  {
    if xs != [] {
      FollowsBuilt(xs);
      GoodComesBack(xs[0], if |xs| == 1 then [] else " " + Built(xs[1..]));
      GoodListComesBack(xs[1..]);
    }
  }

  // ---- And only good values come back ----

  lemma {:induction false} ScanDropsQuotes(r: string, quoted: bool, stop: bool)
    ensures QUOTE !in Scan(r, quoted, stop).0
    decreases |r|
  {
    if r != [] {
      ScanDropsQuotes(r[1..], !quoted, stop);
      ScanDropsQuotes(r[1..], quoted, stop);
    }
  }

  lemma {:induction false} TokensHaveNoQuotes(r: string)
    ensures forall t :: t in Tokens(r) ==> QUOTE !in t.1
    decreases |r|
  {
    var s := SkipSpace(r);
    if s != [] {
      var t := if s[0] == '=' then s else Scan(s, false, true).1;
      if t != [] && t[0] == '=' {
        ScanDropsQuotes(t[1..], false, false);
      }
      TokensHaveNoQuotes(ScanValue(t).1);
    }
  }

  lemma {:induction false} ScanStopsAtSpace(v: string, rest: string, c: char)
    requires QUOTE !in v && c in v && IsSpace(c)
    ensures |Scan(v + rest, false, false).0| < |v|
    decreases |v|
  {
    var r := v + rest;
    assert v[0] in v;
    if !IsSpace(v[0]) {
      assert r[1..] == v[1..] + rest;
      ScanStopsAtSpace(v[1..], rest, c);
    }
  }

  // White space without a space cuts a value short.
  lemma BadValueIsCut(x: Setting, rest: string)
    requires !GoodValue(x.value) && QUOTE !in x.value.value
    ensures |ScanValue(ValuePart(x) + rest).0| < |x.value.value|
  {
    var v := x.value.value;
    var c :| c in v && IsSpace(c);
    assert (ValuePart(x) + rest)[1..] == v + rest;
    ScanStopsAtSpace(v, rest, c);
  }

  lemma FirstToken(x: Setting, rest: string)
    requires GoodKeyword(x.keyword) && Follows(rest)
    ensures Tokens(Printed(x) + rest) != []
    ensures Tokens(Printed(x) + rest)[0].1 == ScanValue(ValuePart(x) + rest).0
  {
    var tail := ValuePart(x) + rest;
    assert x.keyword + ValuePart(x) + rest == x.keyword + tail;
    KeywordComesBack(x.keyword, tail);
  }

  // A value without quotes comes back if and only if it is good.
  lemma FirstValue(x: Setting, rest: string)
    requires GoodKeyword(x.keyword) && x.value.Some? && QUOTE !in x.value.value && Follows(rest)
    ensures Tokens(Printed(x) + rest) != []
    ensures Tokens(Printed(x) + rest)[0].1 == x.value.value <==> GoodValue(x.value)
  {
    FirstToken(x, rest);
    if GoodValue(x.value) {
      ValueComesBack(x, rest);
    } else {
      BadValueIsCut(x, rest);
    }
  }

  lemma HeadIsGood(xs: seq<Setting>)
    requires xs != [] && GoodKeyword(xs[0].keyword) && (xs[0].value.Some? ==> QUOTE !in xs[0].value.value)
    requires Tokens(Built(xs)) == Meant(xs)
    ensures GoodValue(xs[0].value)
  {
    FollowsBuilt(xs);
    if xs[0].value.Some? {
      FirstValue(xs[0], if |xs| == 1 then [] else " " + Built(xs[1..]));
      MeantFirst(xs);
    }
  }

  lemma MeantFirst(xs: seq<Setting>)
    requires xs != [] && xs[0].value.Some?
    ensures Meant(xs) != [] && Meant(xs)[0].1 == xs[0].value.value
  {
  }

  lemma {:induction false} OnlyGoodListsComeBack(xs: seq<Setting>)
    requires forall x :: x in xs ==> GoodKeyword(x.keyword) && (x.value.Some? ==> QUOTE !in x.value.value)
    requires Tokens(Built(xs)) == Meant(xs)
    ensures forall x :: x in xs ==> GoodValue(x.value)
    decreases |xs|
  {
    if xs != [] {
      HeadIsGood(xs);
      FollowsBuilt(xs);
      GoodComesBack(xs[0], if |xs| == 1 then [] else " " + Built(xs[1..]));
      assert Tokens(Built(xs[1..])) == Tokens(Built(xs))[1..] == Meant(xs[1..]);
      OnlyGoodListsComeBack(xs[1..]);
    }
  }

  lemma {:induction false} MeantValues(xs: seq<Setting>, x: Setting)
    requires x in xs && x.value.Some?
    ensures (x.keyword, x.value.value) in Meant(xs)
  {
    if xs[0] != x {
      MeantValues(xs[1..], x);
    }
  }

  // Tokenising what was printed gives back the same keywords and values if and
  // only if every value is free of quotes and, unless it contains a space, of
  // other white space.
  lemma RoundTripIff(xs: seq<Setting>)
    requires forall x :: x in xs ==> GoodKeyword(x.keyword)
    ensures Tokens(Built(xs)) == Meant(xs) <==> forall x :: x in xs ==> GoodValue(x.value)
  {
    if Tokens(Built(xs)) == Meant(xs) {
      TokensHaveNoQuotes(Built(xs));
      forall x | x in xs && x.value.Some?
        ensures QUOTE !in x.value.value
      {
        MeantValues(xs, x);
      }
      OnlyGoodListsComeBack(xs);
    }
    if forall x :: x in xs ==> GoodValue(x.value) {
      GoodListComesBack(xs);
    }
  }

  // ---- Options that were there before ----

  // A word that reaches the end of the string inside quotes.
  predicate OpenWord(r: string, quoted: bool, stop: bool)
    decreases |r|
  {
    if r == [] then quoted
    else if (!quoted && IsSpace(r[0])) || (stop && r[0] == '=') then false
    else if r[0] == QUOTE then OpenWord(r[1..], !quoted, stop)
    else OpenWord(r[1..], quoted, stop)
  }

  // The first word of a string, and what the value is taken from.
  function FirstWord(s: string): (string, string)
    requires s != []
  {
    if s[0] == '=' then ([], s) else Scan(s, false, true)
  }

  predicate OpenKeyword(s: string) {
    s != [] && s[0] != '=' && OpenWord(s, false, true)
  }

  predicate OpenValue(t: string) {
    t != [] && t[0] == '=' && OpenWord(t[1..], false, false)
  }

  // The last keyword or the last value is in quotes that are not closed.
  predicate OpenEnd(r: string)
    decreases |r|
  {
    var s := SkipSpace(r);
    s != [] &&
    var t := FirstWord(s).1;
    assert s[0] != '=' ==> |t| < |s|;
    OpenKeyword(s) || OpenValue(t) || OpenEnd(ScanValue(t).1)
  }

  // A word that ends before what is added ends there still.
  lemma {:induction false} ScanBefore(r: string, x: string, quoted: bool, stop: bool)
    requires !OpenWord(r, quoted, stop)
    ensures Scan(r + " " + x, quoted, stop) == (Scan(r, quoted, stop).0, Scan(r, quoted, stop).1 + " " + x)
    decreases |r|
  {
    var all := r + " " + x;
    if r == [] {
      assert all[0] == ' ';
    } else {
      assert all[0] == r[0] && all[1..] == r[1..] + " " + x;
      if (quoted || !IsSpace(r[0])) && !(stop && r[0] == '=') {
        ScanBefore(r[1..], x, if r[0] == QUOTE then !quoted else quoted, stop);
      }
    }
  }

  // An open word goes on with what is added.
  lemma {:induction false} ScanOpen(r: string, x: string, quoted: bool, stop: bool)
    requires OpenWord(r, quoted, stop)
    ensures Scan(r, quoted, stop).1 == []
    ensures Scan(r + " " + x, quoted, stop)
            == (Scan(r, quoted, stop).0 + (" " + Scan(x, true, stop).0), Scan(x, true, stop).1)
    decreases |r|
  {
    var all := r + " " + x;
    if r == [] {
      assert all[0] == ' ' && all[1..] == x;
      assert [] + (" " + Scan(x, true, stop).0) == [' '] + Scan(x, true, stop).0;
    } else {
      var q := if r[0] == QUOTE then !quoted else quoted;
      assert all[0] == r[0] && all[1..] == r[1..] + " " + x;
      ScanOpen(r[1..], x, q, stop);
      if r[0] != QUOTE {
        Regroup([r[0]], Scan(r[1..], q, stop).0, " " + Scan(x, true, stop).0);
      }
    }
  }

  lemma {:induction false} SkipBefore(r: string, x: string)
    ensures SkipSpace(r + " " + x) == if SkipSpace(r) == [] then SkipSpace(x) else SkipSpace(r) + " " + x
    decreases |r|
  {
    var all := r + " " + x;
    if r == [] {
      assert all[0] == ' ' && all[1..] == x;
    } else {
      assert all[0] == r[0] && all[1..] == r[1..] + " " + x;
      if IsSpace(r[0]) {
        SkipBefore(r[1..], x);
      }
    }
  }

  // What follows the value: x alone if the value reached the end.
  lemma ValueBefore(t: string, x: string)
    requires !OpenValue(t)
    ensures ScanValue(t + " " + x).0 == ScanValue(t).0
    ensures (ScanValue(t + " " + x).1 == x && ScanValue(t).1 == [])
            || ScanValue(t + " " + x).1 == ScanValue(t).1 + " " + x
  {
    var all := t + " " + x;
    if t == [] {
      assert all[0] == ' ' && all[1..] == x;
    } else {
      assert all[0] == t[0] && all[1..] == t[1..] + " " + x;
      if t[0] == '=' {
        ScanBefore(t[1..], x, false, false);
        var u := Scan(t[1..], false, false).1;
        if u == [] {
          assert (u + " " + x)[1..] == x;
        } else {
          assert (u + " " + x)[1..] == u[1..] + " " + x;
        }
      }
    }
  }

  lemma TokensStep(r: string, s: string)
    requires s != [] && SkipSpace(r) == s
    ensures var (o, t) := FirstWord(s);
      Tokens(r) == (if o == [] then [] else [(o, ScanValue(t).0)]) + Tokens(ScanValue(t).1)
    ensures |ScanValue(FirstWord(s).1).1| < |r|
  {
  }

  lemma FirstWordBefore(s: string, x: string)
    requires s != [] && !OpenKeyword(s)
    ensures FirstWord(s + " " + x) == (FirstWord(s).0, FirstWord(s).1 + " " + x)
  {
    assert (s + " " + x)[0] == s[0];
    if s[0] != '=' {
      ScanBefore(s, x, false, true);
    }
  }

  // Options that were there before and do not end in open quotes are acted upon
  // first, and do not disturb what is added.
  lemma {:induction false} InheritedFirst(r: string, x: string)
    requires !OpenEnd(r)
    ensures Tokens(r + " " + x) == Tokens(r) + Tokens(x)
    decreases |r|, 0
  {
    var s := SkipSpace(r);
    SkipBefore(r, x);
    if s == [] {
      SameTokens(r + " " + x, x);
    } else {
      FirstWordBefore(s, x);
      var (o, t) := FirstWord(s);
      ValueBefore(t, x);
      TokensStep(r, s);
      TokensStep(r + " " + x, s + " " + x);
      var first := if o == [] then [] else [(o, ScanValue(t).0)];
      var u := ScanValue(t).1;
      InheritedNext(first, u, ScanValue(t + " " + x).1, x);
    }
  }

  lemma SameTokens(r: string, x: string)
    requires SkipSpace(r) == SkipSpace(x)
    ensures Tokens(r) == Tokens(x)
  {
  }

  lemma InheritedNext(first: seq<(string, string)>, u: string, v: string, x: string)
    requires !OpenEnd(u) && ((v == x && u == []) || v == u + " " + x)
    ensures first + Tokens(v) == first + Tokens(u) + Tokens(x)
    decreases |u|, 1
  {
    if v != x || u != [] {
      InheritedFirst(u, x);
    } else {
      assert Tokens(u) == [];
    }
  }

  lemma InheritedBuilt(inherited: string, xs: seq<Setting>)
    requires !OpenEnd(inherited)
    ensures Tokens(Value(inherited, xs)) == Tokens(inherited) + Tokens(Built(xs))
  {
    if inherited != [] && xs != [] {
      InheritedFirst(inherited, Built(xs));
      Regroup(inherited, " ", Built(xs));
    }
  }

  lemma SameEnd<T>(a: seq<T>, b: seq<T>, c: seq<T>)
    ensures a + b == a + c <==> b == c
  {
    if a + b == a + c {
      assert b == (a + b)[|a|..] && c == (a + c)[|a|..];
    }
  }

  // ---- Open quotes swallow what is added ----

  predicate IsPlain(c: char) {
    c != QUOTE && c != '=' && !IsSpace(c)
  }

  // The characters that printing neither adds nor drops.
  function Plain(s: string): nat {
    if s == [] then 0 else Plain(s[..|s| - 1]) + if IsPlain(s[|s| - 1]) then 1 else 0
  }

  function PlainTokens(ts: seq<(string, string)>): nat {
    if ts == [] then 0 else Plain(ts[0].0) + Plain(ts[0].1) + PlainTokens(ts[1..])
  }

  lemma {:induction false} PlainJoin(a: string, b: string)
    ensures Plain(a + b) == Plain(a) + Plain(b)
    decreases |b|
  {
    if b == [] {
      assert a + b == a;
    } else {
      assert (a + b)[..|a + b| - 1] == a + b[..|b| - 1];
      PlainJoin(a, b[..|b| - 1]);
    }
  }

  lemma PlainFirst(s: string)
    requires s != []
    ensures Plain(s) == Plain(s[1..]) + if IsPlain(s[0]) then 1 else 0
  {
    assert [s[0]] + s[1..] == s && [s[0]][..0] == [];
    PlainJoin([s[0]], s[1..]);
  }

  lemma {:induction false} PlainScan(r: string, quoted: bool, stop: bool)
    ensures Plain(Scan(r, quoted, stop).0) + Plain(Scan(r, quoted, stop).1) == Plain(r)
    decreases |r|
  {
    if !(r == [] || (!quoted && IsSpace(r[0])) || (stop && r[0] == '=')) {
      PlainFirst(r);
      var q := if r[0] == QUOTE then !quoted else quoted;
      PlainScan(r[1..], q, stop);
      if r[0] != QUOTE {
        var w := Scan(r[1..], q, stop).0;
        PlainFirst([r[0]] + w);
        assert ([r[0]] + w)[1..] == w;
      }
    }
  }

  lemma PlainValue(t: string)
    ensures Plain(ScanValue(t).0) + Plain(ScanValue(t).1) <= Plain(t)
  {
    if t != [] {
      PlainFirst(t);
      if t[0] == '=' {
        PlainScan(t[1..], false, false);
        var u := Scan(t[1..], false, false).1;
        if u != [] {
          PlainFirst(u);
        }
      }
    }
  }

  lemma {:induction false} PlainSkip(r: string)
    ensures Plain(SkipSpace(r)) == Plain(r)
    decreases |r|
  {
    if r != [] && IsSpace(r[0]) {
      PlainFirst(r);
      PlainSkip(r[1..]);
    }
  }

  // The tokeniser adds no characters.
  lemma {:induction false} PlainParsed(r: string)
    ensures PlainTokens(Tokens(r)) <= Plain(r)
    decreases |r|
  {
    var s := SkipSpace(r);
    PlainSkip(r);
    if s != [] {
      TokensStep(r, s);
      var (o, t) := FirstWord(s);
      if s[0] != '=' {
        PlainScan(s, false, true);
      }
      PlainValue(t);
      var u := ScanValue(t).1;
      PlainParsed(u);
      if o == [] {
        assert [] + Tokens(u) == Tokens(u);
      } else {
        assert ([(o, ScanValue(t).0)] + Tokens(u))[1..] == Tokens(u);
      }
    }
  }

  lemma PlainPrinted(x: Setting)
    ensures Plain(Printed(x)) == Plain(x.keyword) + if x.value.Some? then Plain(x.value.value) else 0
  {
    PlainJoin(x.keyword, ValuePart(x));
    if x.value.Some? {
      var v := x.value.value;
      PlainJoin("=", if ' ' in v then [QUOTE] + v + [QUOTE] else v);
      PlainJoin([QUOTE] + v, [QUOTE]);
      PlainJoin([QUOTE], v);
      assert "="[..0] == [] == [QUOTE][..0];
    }
  }

  // Nor does the printer.
  lemma {:induction false} PlainBuilt(xs: seq<Setting>)
    ensures Plain(Built(xs)) == PlainTokens(Meant(xs))
    decreases |xs|
  {
    if xs != [] {
      PlainPrinted(xs[0]);
      PlainBuilt(xs[1..]);
      var first := [(xs[0].keyword, if xs[0].value.Some? then xs[0].value.value else [])];
      assert (first + Meant(xs[1..]))[1..] == Meant(xs[1..]);
      if |xs| > 1 {
        PlainJoin(Printed(xs[0]), " " + Built(xs[1..]));
        PlainJoin(" ", Built(xs[1..]));
        assert " "[..0] == [];
      } else {
        assert xs[1..] == [];
        PlainJoin(Printed(xs[0]), []);
      }
    }
  }

  lemma BuiltStarts(xs: seq<Setting>)
    requires xs != [] && GoodKeyword(xs[0].keyword)
    ensures Built(xs) != [] && IsPlain(Built(xs)[0])
    ensures Meant(xs) != [] && Meant(xs)[0].0 == xs[0].keyword && ' ' !in Meant(xs)[0].0
  {
    var o := xs[0].keyword;
    assert o[0] in o && Printed(xs[0])[0] == o[0] && Built(xs)[0] == o[0];
    assert IsSpace(' ');
  }

  // What is left when a value has swallowed the first keyword is too short to
  // hold all that was added.
  lemma SwallowedShort(xs: seq<Setting>, u: string)
    requires xs != [] && GoodKeyword(xs[0].keyword)
    requires var v := Scan(Built(xs), true, false).1; u == if v == [] then [] else v[1..]
    ensures Tokens(u) != Meant(xs)
  {
    var x := Built(xs);
    var (w, v) := Scan(x, true, false);
    BuiltStarts(xs);
    PlainScan(x, true, false);
    assert w != [] && w[0] == x[0];
    PlainFirst(w);
    if v != [] {
      PlainFirst(v);
    }
    PlainParsed(u);
    PlainBuilt(xs);
  }

  // An open keyword goes on with a space.
  lemma OpenKeywordSpoils(r: string, s: string, xs: seq<Setting>)
    requires xs != [] && GoodKeyword(xs[0].keyword) && SkipSpace(r) == s && OpenKeyword(s)
    ensures Tokens(r + " " + Built(xs)) != Tokens(r) + Meant(xs)
  {
    var x := Built(xs);
    SkipBefore(r, x);
    ScanOpen(s, x, false, true);
    assert (s + " " + x)[0] == s[0];
    TokensStep(r, s);
    TokensStep(r + " " + x, s + " " + x);
    BuiltStarts(xs);
    var o, more := FirstWord(s).0, FirstWord(s + " " + x).0;
    assert more[|o|] == ' ' && |more| > |o|;
    assert Tokens([]) == [];
    if o == [] {
      assert Tokens(r) == [] && [] + Meant(xs) == Meant(xs);
      assert more[0] in more;
    }
  }

  lemma OpenValueGoesOn(t: string, x: string)
    requires OpenValue(t)
    ensures ScanValue(t).1 == []
    ensures var v := Scan(x, true, false).1;
      ScanValue(t + " " + x) == (ScanValue(t).0 + (" " + Scan(x, true, false).0), if v == [] then [] else v[1..])
  {
    ScanOpen(t[1..], x, false, false);
    assert (t + " " + x)[0] == '=' && (t + " " + x)[1..] == t[1..] + " " + x;
  }

  // An open value goes on, or if it has no keyword is dropped with what it
  // swallows.
  lemma OpenValueSpoils(r: string, s: string, xs: seq<Setting>)
    requires xs != [] && GoodKeyword(xs[0].keyword)
    requires s != [] && SkipSpace(r) == s && !OpenKeyword(s) && OpenValue(FirstWord(s).1)
    ensures Tokens(r + " " + Built(xs)) != Tokens(r) + Meant(xs)
  {
    var x := Built(xs);
    SkipBefore(r, x);
    FirstWordBefore(s, x);
    var (o, t) := FirstWord(s);
    OpenValueGoesOn(t, x);
    TokensStep(r, s);
    TokensStep(r + " " + x, s + " " + x);
    SpoiltValue(o, ScanValue(t).0, Scan(x, true, false).0, ScanValue(t + " " + x).1, Tokens(r), xs);
  }

  lemma SpoiltValue(o: string, a: string, w: string, u: string, was: seq<(string, string)>, xs: seq<Setting>)
    requires xs != [] && GoodKeyword(xs[0].keyword)
    requires var v := Scan(Built(xs), true, false).1; u == if v == [] then [] else v[1..]
    requires was == (if o == [] then [] else [(o, a)]) + Tokens([])
    ensures (if o == [] then [] else [(o, a + (" " + w))]) + Tokens(u) != was + Meant(xs)
  {
    assert Tokens([]) == [];
    if o == [] {
      assert was + Meant(xs) == Meant(xs) && [] + Tokens(u) == Tokens(u);
      SwallowedShort(xs, u);
    } else {
      assert (was + Meant(xs))[0] == (o, a);
      assert |a + (" " + w)| > |a|;
    }
  }

  // Options that end in open quotes always spoil what is added.
  lemma {:induction false} OpenEndSpoils(r: string, xs: seq<Setting>)
    requires xs != [] && GoodKeyword(xs[0].keyword) && OpenEnd(r)
    ensures Tokens(r + " " + Built(xs)) != Tokens(r) + Meant(xs)
    decreases |r|
  {
    var s, x := SkipSpace(r), Built(xs);
    var (o, t) := FirstWord(s);
    if OpenKeyword(s) {
      OpenKeywordSpoils(r, s, xs);
    } else if OpenValue(t) {
      OpenValueSpoils(r, s, xs);
    } else {
      SkipBefore(r, x);
      FirstWordBefore(s, x);
      ValueBefore(t, x);
      TokensStep(r, s);
      TokensStep(r + " " + x, s + " " + x);
      var u := ScanValue(t).1;
      OpenEndSpoils(u, xs);
      var first := if o == [] then [] else [(o, ScanValue(t).0)];
      SpoiltRest(first, Tokens(u + " " + x), Tokens(u), Meant(xs));
    }
  }

  lemma SpoiltRest<T>(first: seq<T>, now: seq<T>, was: seq<T>, added: seq<T>)
    requires now != was + added
    ensures first + now != first + was + added
  {
    assert first + was + added == first + (was + added);
    SameEnd(first, now, was + added);
  }

  // What was added comes back behind what was there before if and only if every
  // value is good and what was there does not end in open quotes.
  lemma VariableComesBack(inherited: string, xs: seq<Setting>)
    requires forall x :: x in xs ==> GoodKeyword(x.keyword)
    ensures Tokens(Value(inherited, xs)) == Tokens(inherited) + Meant(xs)
            <==> xs == [] || (!OpenEnd(inherited) && forall x :: x in xs ==> GoodValue(x.value))
  {
    if xs == [] {
      assert Value(inherited, xs) == inherited;
      assert Tokens([]) == [];
    } else if OpenEnd(inherited) {
      assert xs[0] in xs && inherited != [];
      OpenEndSpoils(inherited, xs);
      Regroup(inherited, " ", Built(xs));
    } else {
      InheritedBuilt(inherited, xs);
      SameEnd(Tokens(inherited), Tokens(Built(xs)), Meant(xs));
      RoundTripIff(xs);
    }
  }

  lemma {:induction false} OpenScan(w: string)
    requires QUOTE !in w
    ensures Scan(w, true, false) == (w, []) && OpenWord(w, true, false)
    decreases |w|
  {
    if w != [] {
      assert w[0] in w;
      OpenScan(w[1..]);
      assert [w[0]] + w[1..] == w;
    }
  }

  // A keyword whose value is in quotes that are not closed.
  lemma OpenToken(o: string, v: string, r: string)
    requires GoodKeyword(o) && QUOTE !in v && r == o + (['=', QUOTE] + v)
    ensures Tokens(r) == [(o, v)] && OpenEnd(r)
  {
    var t := ['=', QUOTE] + v;
    KeywordComesBack(o, t);
    OpenScan(v);
    assert t[1..] == [QUOTE] + v && t[1..][1..] == v;
    assert ScanValue(t) == (v, []) && Tokens([]) == [];
    assert o[0] in o;
    ScanPlain(o, t, true);
    ClosedPlain(o, t, true);
    assert SkipSpace(r) == r && FirstWord(r).1 == t;
  }

  // An option without quotes that is added to it is swallowed.
  lemma OpenSwallows(o: string, v: string, inherited: string, x: Setting)
    requires GoodKeyword(o) && QUOTE !in v && QUOTE !in Printed(x) && inherited == o + (['=', QUOTE] + v)
    ensures OpenEnd(inherited) && Tokens(inherited) == [(o, v)]
    ensures Tokens(Value(inherited, [x])) == [(o, v + (" " + Printed(x)))]
  {
    OpenToken(o, v, inherited);
    BuiltOne([x]);
    var added := " " + Printed(x);
    Regroup(['=', QUOTE], v, added);
    Regroup(o, ['=', QUOTE] + v, added);
    OpenToken(o, v + added, inherited + added);
  }

  // For instance a good option behind a quote that is not closed.
  lemma OpenQuoteExample(o: string, v: string, inherited: string, x: Setting)
    requires o == "A" && v == "b" && inherited == "A=\"b" && x == Setting("LOGFILE", Some("c"))
    ensures GoodKeyword(x.keyword) && GoodValue(x.value)
    ensures OpenEnd(inherited) && Tokens(inherited) == [(o, v)]
    ensures Tokens(Value(inherited, [x])) == [(o, v + " LOGFILE=c")]
  {
    LogfileIsGood(x.keyword, x.value);
    LogfilePrinted(x);
    assert GoodKeyword(o) && inherited == o + (['=', QUOTE] + v);
    OpenSwallows(o, v, inherited, x);
  }

  lemma LogfileIsGood(o: string, v: Option<string>)
    requires o == "LOGFILE" && v == Some("c")
    ensures GoodKeyword(o) && GoodValue(v)
  {
  }

  lemma LogfilePrinted(x: Setting)
    requires x == Setting("LOGFILE", Some("c"))
    ensures QUOTE !in Printed(x) && " " + Printed(x) == " LOGFILE=c"
  {
    assert Printed(x) == "LOGFILE" + ("=" + "c") == "LOGFILE=c";
  }

  lemma {:induction false} ClosedPlain(w: string, rest: string, stop: bool)
    requires QUOTE !in w && forall c :: c in w ==> !IsSpace(c)
    requires rest == [] || IsSpace(rest[0]) || (stop && rest[0] == '=')
    ensures !OpenWord(w + rest, false, stop)
    decreases |w|
  {
    if w == [] {
      assert w + rest == rest;
    } else {
      assert w[0] in w;
      ClosedPlain(w[1..], rest, stop);
      assert (w + rest)[1..] == w[1..] + rest;
    }
  }

  lemma {:induction false} ClosedQuoted(v: string, rest: string)
    requires QUOTE !in v && Follows(rest)
    ensures !OpenWord(v + [QUOTE] + rest, true, false)
    decreases |v|
  {
    var r := v + [QUOTE] + rest;
    if v == [] {
      assert r[1..] == rest;
    } else {
      assert v[0] in v;
      ClosedQuoted(v[1..], rest);
      assert r[1..] == v[1..] + [QUOTE] + rest;
    }
  }

  lemma ClosedValue(x: Setting, rest: string)
    requires GoodValue(x.value) && Follows(rest)
    ensures !OpenValue(ValuePart(x) + rest)
  {
    var tail := ValuePart(x) + rest;
    if x.value.None? {
      assert tail == rest;
    } else if ' ' in x.value.value {
      ClosedQuoted(x.value.value, rest);
      assert tail[1..] == [QUOTE] + (x.value.value + [QUOTE] + rest);
      assert tail[1..][1..] == x.value.value + [QUOTE] + rest;
    } else {
      assert tail[1..] == x.value.value + rest;
      ClosedPlain(x.value.value, rest, false);
    }
  }

  lemma GoodIsClosed(x: Setting, rest: string)
    requires GoodKeyword(x.keyword) && GoodValue(x.value) && Follows(rest)
    ensures OpenEnd(Printed(x) + rest) <==> OpenEnd(if rest == [] then [] else rest[1..])
  {
    var o, tail := x.keyword, ValuePart(x) + rest;
    assert o + ValuePart(x) + rest == o + tail;
    assert o[0] in o && (o + tail)[0] == o[0];
    ScanPlain(o, tail, true);
    ClosedPlain(o, tail, true);
    ValueComesBack(x, rest);
    ClosedValue(x, rest);
    assert SkipSpace(o + tail) == o + tail && FirstWord(o + tail) == (o, tail);
  }

  // What an earlier run has printed does not end in open quotes.
  lemma {:induction false} BuiltIsClosed(xs: seq<Setting>)
    requires forall x :: x in xs ==> GoodKeyword(x.keyword) && GoodValue(x.value)
    ensures !OpenEnd(Built(xs))
    decreases |xs|
  {
    if xs != [] {
      FollowsBuilt(xs);
      GoodIsClosed(xs[0], if |xs| == 1 then [] else " " + Built(xs[1..]));
      BuiltIsClosed(xs[1..]);
    }
  }

  // Options that an earlier run has put into the variable and those that this
  // run adds all come back, with spaces in their values or not.
  lemma EarlierRunComesBack(ys: seq<Setting>, xs: seq<Setting>)
    requires forall x :: x in ys + xs ==> GoodKeyword(x.keyword) && GoodValue(x.value)
    ensures Tokens(Value(Built(ys), xs)) == Meant(ys) + Meant(xs)
  {
    assert forall x :: x in ys || x in xs ==> x in ys + xs;
    BuiltIsClosed(ys);
    VariableComesBack(Built(ys), xs);
    GoodListComesBack(ys);
  }

  // For instance a tab in a file name.
  lemma TabExample(x: Setting)
    requires x == Setting("LOGFILE", Some("a\tb"))
    ensures Tokens(Built([x])) != Meant([x])
  {
    assert x.value.value[1] in x.value.value && IsSpace(x.value.value[1]) && ' ' !in x.value.value;
    assert x in [x] && !GoodValue(x.value) && GoodKeyword(x.keyword);
    RoundTripIff([x]);
  }

  // ---- The tokeniser, in place ----

  const NUL := '\0'

  // Character s of the text goes, and the rest moves up.
  method Remove(text: array<char>, s: nat, end: nat)
    requires s < end < text.Length
    modifies text
    ensures text[..s] == old(text[..s]) && text[s..end] == old(text[s + 1..end + 1])
  {
    var i := s;
    while i < end
      invariant s <= i <= end
      invariant forall k :: 0 <= k < s ==> text[k] == old(text[k])
      invariant forall k :: s <= k < i ==> text[k] == old(text[k + 1])
      invariant forall k :: i <= k < text.Length ==> text[k] == old(text[k])
    {
      text[i] := text[i + 1];
      i := i + 1;
    }
  }

  // The text from s on, up to its terminator at end.
  ghost predicate Terminated(text: array<char>, s: nat, end: nat)
    reads text
  {
    s <= end < text.Length && text[end] == NUL && NUL !in text[s..end]
  }

  // src/option.c:454-461 and 476-483: a quote is taken out.
  method DropQuote(text: array<char>, s0: nat, s: nat, end: nat)
    requires s0 <= s < end && Terminated(text, s, end)
    modifies text
    ensures Terminated(text, s, end - 1) && text[s0..s] == old(text[s0..s])
    ensures text[s..end - 1] == old(text[s + 1..end])
  {
    ghost var was := text[..];
    Remove(text, s, end);
    assert forall k :: s0 <= k < s ==> text[..s][k] == was[..s][k];
    assert forall k :: s <= k < end ==> text[k] == text[s..end][k - s] == was[s + 1..end + 1][k - s] == was[k + 1];
  }

  lemma ScanOne(word: string, r: string, quoted: bool, stop: bool, c: char)
    requires r != [] && r[0] == c && (quoted || !IsSpace(c)) && !(stop && c == '=')
    ensures var q, w := if c == QUOTE then !quoted else quoted, if c == QUOTE then word else word + [c];
      && word + Scan(r, quoted, stop).0 == w + Scan(r[1..], q, stop).0
      && Scan(r, quoted, stop).1 == Scan(r[1..], q, stop).1
  {
  }

  lemma ScanEnd(word: string, r: string, quoted: bool, stop: bool)
    requires r == [] || (!quoted && IsSpace(r[0])) || (stop && r[0] == '=')
    ensures word + Scan(r, quoted, stop).0 == word && Scan(r, quoted, stop).1 == r
  {
  }

  // src/option.c:452-461 and 475-483
  method ScanWord(text: array<char>, s0: nat, end0: nat, stop: bool) returns (s: nat, end: nat)
    requires Terminated(text, s0, end0)
    modifies text
    ensures s0 <= s <= end <= end0 && Terminated(text, s, end)
    ensures (text[s0..s], text[s..end]) == Scan(old(text[s0..end0]), false, stop)
  {
    s, end := s0, end0;
    var q := false;
    ghost var r, rest, word := text[s0..end0], text[s0..end0], [];
    assert [] + Scan(r, false, stop).0 == Scan(r, false, stop).0;
    while (q || !IsSpace(text[s])) && text[s] != NUL && !(stop && text[s] == '=')
      invariant s0 <= s <= end <= end0 && Terminated(text, s, end)
      invariant rest == text[s..end] && word == text[s0..s]
      invariant Scan(r, false, stop).0 == word + Scan(rest, q, stop).0
      invariant Scan(r, false, stop).1 == Scan(rest, q, stop).1
      decreases end - s
    {
      ScanOne(word, rest, q, stop, text[s]);
      s, end, q, word, rest := TakeChar(text, s0, s, end, q, word, rest);
    }
    assert s < end ==> text[s] == rest[0];
    ScanEnd(word, rest, q, stop);
  }

  // One turn of the loop: a quote goes and changes whether white space ends
  // the word; any other character stays.
  method TakeChar(text: array<char>, s0: nat, s: nat, end: nat, q: bool, ghost word: string, ghost rest: string)
    returns (s1: nat, end1: nat, q1: bool, ghost word1: string, ghost rest1: string)
    requires s0 <= s < end && Terminated(text, s, end) && rest == text[s..end] && word == text[s0..s]
    modifies text
    ensures s <= s1 <= end1 <= end && end1 - s1 < end - s && Terminated(text, s1, end1)
    ensures rest1 == text[s1..end1] == rest[1..] && word1 == text[s0..s1]
    ensures q1 == (if rest[0] == QUOTE then !q else q) && word1 == if rest[0] == QUOTE then word else word + [rest[0]]
  {
    s1, end1, q1, word1, rest1 := s, end, q, word, rest[1..];
    assert text[s] == rest[0];
    if text[s] == QUOTE {
      DropQuote(text, s0, s, end);
      end1 := end - 1;
      q1 := !q;
    } else {
      word1 := word + [rest[0]];
      s1 := s + 1;
    }
  }

  // src/option.c:441-489: the string is taken apart where it is; what is acted
  // upon are the keywords with their values.
  method Tokenise(text: array<char>, n: nat) returns (out: seq<(string, string)>)
    requires Terminated(text, 0, n)
    modifies text
    ensures out == Tokens(old(text[0..n]))
  {
    var s, end := 0, n;
    out := [];
    ghost var all := Tokens(text[0..n]);
    while text[s] != NUL
      invariant Terminated(text, s, end)
      invariant out + Tokens(text[s..end]) == all
      decreases end - s
    {
      s := SkipBlanks(text, s, end);
      if text[s] == NUL {
        break;
      }
      ghost var r := text[s..end];
      assert r[0] == text[s];
      var o, a;
      s, end, o, a := NextToken(text, s, end);
      TokensNext(r, out, o, a, text[s..end]);
      if o != [] {
        out := out + [(o, a)];
      }
    }
  }

  lemma TokensNext(r: string, out: seq<(string, string)>, o: string, a: string, u: string)
    requires r != [] && !IsSpace(r[0])
    requires var (p, t) := if r[0] == '=' then ([], r) else Scan(r, false, true);
      o == p && a == ScanValue(t).0 && u == ScanValue(t).1
    ensures out + Tokens(r) == (if o == [] then out else out + [(o, a)]) + Tokens(u)
  {
  }

  method SkipBlanks(text: array<char>, s0: nat, end: nat) returns (s: nat)
    requires Terminated(text, s0, end)
    ensures s0 <= s <= end && Terminated(text, s, end) && text[s..end] == SkipSpace(text[s0..end])
  {
    s := s0;
    while IsSpace(text[s])
      invariant s0 <= s <= end && Terminated(text, s, end)
      invariant SkipSpace(text[s0..end]) == SkipSpace(text[s..end])
      decreases end - s
    {
      assert text[s] == text[s..end][0] && text[s..end][1..] == text[s + 1..end];
      s := s + 1;
    }
    assert s < end ==> text[s] == text[s..end][0];
  }

  // src/option.c:448-488: a keyword and its value.
  method NextToken(text: array<char>, s0: nat, end0: nat) returns (s: nat, end: nat, o: string, a: string)
    requires Terminated(text, s0, end0) && s0 < end0 && !IsSpace(text[s0])
    modifies text
    ensures s <= end && end - s < end0 - s0 && Terminated(text, s, end)
    ensures var r := old(text[s0..end0]);
      var (p, t) := if r[0] == '=' then ([], r) else Scan(r, false, true);
      o == p && a == ScanValue(t).0 && text[s..end] == ScanValue(t).1
  {
    s, end, o := s0, end0, [];
    ghost var r := text[s0..end0];
    assert r[0] == text[s0];
    if text[s] != '=' {
      s, end := ScanWord(text, s0, end0, true);
      o := text[s0..s];
    }
    s, end, a := NextValue(text, s, end);
  }

  method NextValue(text: array<char>, s0: nat, end0: nat) returns (s: nat, end: nat, a: string)
    requires Terminated(text, s0, end0)
    modifies text
    ensures s <= end && Terminated(text, s, end) && end - s <= end0 - s0 && (s0 < end0 ==> end - s < end0 - s0)
    ensures a == ScanValue(old(text[s0..end0])).0 && text[s..end] == ScanValue(old(text[s0..end0])).1
  {
    s, end, a := s0, end0, [];
    ghost var t := text[s0..end0];
    assert s0 < end0 ==> t[0] == text[s0];
    if text[s] == NUL {
      return;
    }
    if text[s] != '=' {
      text[s] := NUL;
      s := s + 1;
      assert text[s..end] == t[1..];
      return;
    }
    text[s] := NUL;
    s := s + 1;
    assert text[s..end] == t[1..];
    var start := s;
    s, end := ScanWord(text, s, end, false);
    a := text[start..s];
    if text[s] != NUL {
      ghost var rest := text[s..end];
      text[s] := NUL;
      s := s + 1;
      assert text[s..end] == rest[1..];
    }
  }
}
