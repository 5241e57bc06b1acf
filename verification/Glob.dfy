// The pattern matcher of src/getopt.c in a memory that goes on behind the
// pattern, and the language that a pattern stands for.
module Glob {

  const NUL := '\0'

  // A char is signed: the upper half of the characters comes first.
  function Signed(c: char): int {
    if c as int < 128 then c as int else c as int - 256
  }

  // ---- The language of a pattern ----

  // A member of a character class: a character, or a range of them.
  datatype Member = Single(c: char) | Span(lo: char, hi: char)

  datatype Part = Literal(c: char) | AnyChar | AnyString | Class(negated: bool, members: seq<Member>)

  // The members of a class, up to its end.  A class is open if the pattern ends
  // before the class does, also where it ends with a range that has no upper
  // end.
  datatype Members = Closed(members: seq<Member>, rest: string) | Open

  // A pattern is whole unless it ends in an open class; then front is what
  // comes before that class.
  datatype Pattern = Whole(parts: seq<Part>) | Broken(front: seq<Part>)

  function ReadMembers(r: string): (m: Members)
    ensures m.Closed? ==> |m.rest| < |r|
    decreases |r|
  {
    if r == [] then Open
    else if r[0] == ']' then Closed([], r[1..])
    else if |r| > 1 && r[1] == '-' then
      if |r| == 2 then Open
      else
        match ReadMembers(r[3..])
        case Closed(ms, rest) => Closed([Span(r[0], r[2])] + ms, rest)
        case Open => Open
    else
      match ReadMembers(r[1..])
      case Closed(ms, rest) => Closed([Single(r[0])] + ms, rest)
      case Open => Open
  }

  predicate Negated(t: string) {
    |t| > 1 && t[1] == '!'
  }

  // The text behind the opening bracket and the negation.
  function ClassText(t: string): string
    requires t != []
  {
    if Negated(t) then t[2..] else t[1..]
  }

  predicate EmptyClass(t: string)
    requires t != []
  {
    ClassText(t) != [] && ClassText(t)[0] == ']'
  }

  // A class without members matches nothing, so that what follows it does not
  // matter.
  function Read(t: string): Pattern
    decreases |t|
  {
    if t == [] then Whole([])
    else if t[0] != '[' then
      After(if t[0] == '*' then AnyString else if t[0] == '?' then AnyChar else Literal(t[0]), Read(t[1..]))
    else if EmptyClass(t) then Whole([Class(Negated(t), [])])
    else
      match ReadMembers(ClassText(t))
      case Closed(ms, rest) => After(Class(Negated(t), ms), Read(rest))
      case Open => Broken([])
  }

  function After(p: Part, rest: Pattern): Pattern {
    match rest
    case Whole(ps) => Whole([p] + ps)
    case Broken(ps) => Broken([p] + ps)
  }

  predicate IsMember(m: Member, d: char) {
    match m
    case Single(c) => c == d
    case Span(lo, hi) => Signed(lo) <= Signed(d) <= Signed(hi)
  }

  predicate InClass(ms: seq<Member>, d: char) {
    exists i :: 0 <= i < |ms| && IsMember(ms[i], d)
  }

  ghost predicate Denotes(ps: seq<Part>, s: string)
    decreases |ps|
  {
    if ps == [] then s == []
    else
      match ps[0]
      case AnyString => exists k {:trigger Denotes(ps[1..], s[k..])} :: 0 <= k <= |s| && Denotes(ps[1..], s[k..])
      case AnyChar => s != [] && Denotes(ps[1..], s[1..])
      case Literal(c) => s != [] && s[0] == c && Denotes(ps[1..], s[1..])
      case Class(negated, ms) => s != [] && ms != [] && InClass(ms, s[0]) != negated && Denotes(ps[1..], s[1..])
  }

  // A pattern that ends in an open class matches nothing.
  ghost predicate Matches(s: string, t: string) {
    Read(t).Whole? && Denotes(Read(t).parts, s)
  }

  // The pattern ends in an open class, and what comes before that class matches
  // a beginning of the string that leaves a character for the class.
  ghost predicate Scans(s: string, t: string) {
    Read(t).Broken? && exists k :: 0 <= k < |s| && Denotes(Read(t).front, s[..k])
  }

  // ---- What the C code does ----

  // Past means that a character behind the end of the memory is read.
  datatype Outcome = Answer(matched: bool) | Past

  datatype Scanned = End(found: bool, j: nat) | Stop | Beyond

  // src/getopt.c:348-358: the members from position j on.  The character behind
  // a member is looked at before the member is compared with the terminator.
  function Scan(m: string, j: nat, d: char, found: bool): (r: Scanned)
    ensures r.End? ==> j < r.j <= |m|
    decreases |m| - j
  {
    if j >= |m| then Beyond
    else if m[j] == ']' then End(found, j + 1)
    else if j + 1 == |m| then Beyond
    else if m[j + 1] == '-' then
      if Signed(m[j]) > Signed(d) then Scan(m, j + 3, d, found)
      else if j + 2 == |m| then Beyond
      else Scan(m, j + 3, d, found || Signed(d) <= Signed(m[j + 2]))
    else if m[j] == d then Scan(m, j + 1, d, true)
    else if m[j] == NUL then Stop
    else Scan(m, j + 1, d, found)
  }

  // src/getopt.c:335-380: string s against the pattern at position j.
  function Run(s: string, m: string, j: nat): Outcome
    decreases |m| - j, 0
  {
    if j >= |m| then Past
    else if m[j] == NUL then Answer(s == [])
    else if m[j] == '[' then RunClass(s, m, j + 1)
    else if m[j] == '*' then
      if j + 1 == |m| then Past
      else if m[j + 1] == NUL then Answer(true)
      else RunTails(s, m, j + 1)
    else if s == [] || (m[j] != '?' && s[0] != m[j]) then Answer(false)
    else Run(s[1..], m, j + 1)
  }

  // src/getopt.c:345-360
  function RunClass(s: string, m: string, j: nat): Outcome
    decreases |m| - j, 0
  {
    if j >= |m| then Past
    else
      var negated := m[j] == '!';
      var k := if negated then j + 1 else j;
      if k == |m| then Past
      else if m[k] == ']' || s == [] then Answer(false)
      else
        match Scan(m, k, s[0], false)
        case Beyond => Past
        case Stop => Answer(false)
        case End(found, e) => if found == negated then Answer(false) else Run(s[1..], m, e)
  }

  // src/getopt.c:366-370: the rest of the pattern against every tail of s.
  function RunTails(s: string, m: string, j: nat): Outcome
    decreases |m| - j, |s| + 1
  {
    if j >= |m| then Past
    else
      var first := Run(s, m, j);
      if first != Answer(false) || s == [] then first else RunTails(s[1..], m, j)
  }

  // ---- Classes ----

  lemma ConsClass(ps: seq<Part>, p: Part)
    ensures ([p] + ps)[1..] == ps
  {
  }

  lemma MoreMembers(m: Member, ms: seq<Member>, d: char)
    ensures InClass([m] + ms, d) <==> IsMember(m, d) || InClass(ms, d)
  {
    var n := [m] + ms;
    if i :| 0 <= i < |ms| && IsMember(ms[i], d) {
      assert n[i + 1] == ms[i];
    }
    if IsMember(m, d) {
      assert n[0] == m;
    }
  }

  // A closed class is scanned to its end; an open one is scanned beyond the
  // terminator, whatever is found.
  lemma {:induction false} ScanMeans(t: string, j: nat, d: char, found: bool)
    requires j <= |t| && NUL !in t
    ensures match ReadMembers(t[j..])
            case Closed(ms, rest) =>
              Scan(t + [NUL], j, d, found) == End(found || InClass(ms, d), |t| - |rest|) && t[|t| - |rest|..] == rest
            case Open => Scan(t + [NUL], j, d, found) == Beyond
    decreases |t| - j
  {
    var r, m := t[j..], t + [NUL];
    if j < |t| && t[j] != ']' {
      assert t[j] in t;
      assert |r| > 1 ==> m[j + 1] == r[1];
      if |r| > 1 && r[1] == '-' {
        if |r| > 2 {
          ScanRange(t, j, d, found);
        }
      } else {
        ScanSingle(t, j, d, found);
      }
    }
  }

  lemma ScanRange(t: string, j: nat, d: char, found: bool)
    requires j + 2 < |t| && NUL !in t && t[j] != ']' && t[j + 1] == '-'
    ensures match ReadMembers(t[j..])
            case Closed(ms, rest) =>
              Scan(t + [NUL], j, d, found) == End(found || InClass(ms, d), |t| - |rest|) && t[|t| - |rest|..] == rest
            case Open => Scan(t + [NUL], j, d, found) == Beyond
    decreases |t| - j, 0
  {
    var r, p := t[j..], Span(t[j], t[j + 2]);
    assert r[3..] == t[j + 3..];
    ScanMeans(t, j + 3, d, found || IsMember(p, d));
    if ReadMembers(r[3..]).Closed? {
      MoreMembers(p, ReadMembers(r[3..]).members, d);
    }
  }

  lemma ScanSingle(t: string, j: nat, d: char, found: bool)
    requires j < |t| && NUL !in t && t[j] != ']' && !(j + 1 < |t| && t[j + 1] == '-')
    ensures match ReadMembers(t[j..])
            case Closed(ms, rest) =>
              Scan(t + [NUL], j, d, found) == End(found || InClass(ms, d), |t| - |rest|) && t[|t| - |rest|..] == rest
            case Open => Scan(t + [NUL], j, d, found) == Beyond
    decreases |t| - j, 0
  {
    var r := t[j..];
    assert t[j] in t;
    assert r[1..] == t[j + 1..];
    ScanMeans(t, j + 1, d, found || t[j] == d);
    if ReadMembers(r[1..]).Closed? {
      MoreMembers(Single(t[j]), ReadMembers(r[1..]).members, d);
    }
  }

  lemma ScanIn(t: string, k: nat, d: char, ms: seq<Member>, e: nat, base: string)
    requires k <= |t| && NUL !in t && e <= |t| && base == t + [NUL]
    requires ReadMembers(t[k..]) == Closed(ms, t[e..])
    ensures Scan(base, k, d, false) == End(InClass(ms, d), e)
  {
    ScanMeans(t, k, d, false);
    assert |t| - |t[e..]| == e;
  }

  // ---- What the C code computes ----

  // One character of the string and one part of the pattern.
  predicate Takes(p: Part, d: char) {
    match p
    case Literal(c) => d == c
    case AnyChar => true
    case AnyString => false
    case Class(negated, ms) => ms != [] && InClass(ms, d) != negated
  }

  // The match gets as far as the open class with a character of the set.
  ghost predicate Meets(s: string, t: string, yes: set<char>) {
    Read(t).Broken? && exists k :: 0 <= k < |s| && s[k] in yes && Denotes(Read(t).front, s[..k])
  }

  lemma ScansMeets(s: string, t: string, yes: set<char>)
    requires forall c :: c in s ==> c in yes
    ensures Scans(s, t) <==> Meets(s, t, yes)
  {
  }

  // A part that stands for one character, in front of the rest of a pattern.
  lemma TakeOne(s: string, p: Part, t: string, rest: string)
    requires !p.AnyString? && Read(t) == After(p, Read(rest))
    ensures Matches(s, t) <==> s != [] && Takes(p, s[0]) && Matches(s[1..], rest)
    ensures Scans(s, t) <==> s != [] && Takes(p, s[0]) && Scans(s[1..], rest)
  {
    var all := set c | c in s;
    ScansMeets(s, t, all);
    if s != [] {
      ScansMeets(s[1..], rest, all);
    }
    match Read(rest)
    case Whole(ps) => ConsClass(ps, p);
    case Broken(ps) => TakeFront(s, p, ps, t, rest, all);
  }

  lemma TakeFront(s: string, p: Part, ps: seq<Part>, t: string, rest: string, yes: set<char>)
    requires !p.AnyString? && Read(rest) == Broken(ps) && Read(t) == Broken([p] + ps)
    ensures Meets(s, t, yes) <==> s != [] && Takes(p, s[0]) && Meets(s[1..], rest, yes)
  {
    ConsClass(ps, p);
    if Meets(s, t, yes) {
      var k :| 0 <= k < |s| && s[k] in yes && Denotes([p] + ps, s[..k]);
      assert s[..k][1..] == s[1..][..k - 1];
      assert s[1..][k - 1] in yes && Denotes(ps, s[1..][..k - 1]);
    }
    if s != [] && Takes(p, s[0]) && Meets(s[1..], rest, yes) {
      var k :| 0 <= k < |s[1..]| && s[1..][k] in yes && Denotes(ps, s[1..][..k]);
      assert s[..k + 1][1..] == s[1..][..k];
      assert s[k + 1] in yes && Denotes([p] + ps, s[..k + 1]);
    }
  }

  ghost predicate SomeTailMatches(s: string, t: string) {
    exists k {:trigger Matches(s[k..], t)} :: 0 <= k <= |s| && Matches(s[k..], t)
  }

  ghost predicate SomeTailScans(s: string, t: string) {
    exists k {:trigger Scans(s[k..], t)} :: 0 <= k <= |s| && Scans(s[k..], t)
  }

  ghost predicate SomeTailMeets(s: string, t: string, yes: set<char>) {
    exists k {:trigger Meets(s[k..], t, yes)} :: 0 <= k <= |s| && Meets(s[k..], t, yes)
  }

  lemma TakeMany(s: string, t: string)
    requires t != [] && t[0] == '*'
    ensures Matches(s, t) <==> SomeTailMatches(s, t[1..])
    ensures Scans(s, t) <==> SomeTailScans(s, t[1..])
  {
    match Read(t[1..])
    case Whole(ps) =>
      ConsClass(ps, AnyString);
      if k :| 0 <= k <= |s| && Denotes(ps, s[k..]) {
        assert Matches(s[k..], t[1..]);
      }
    case Broken(ps) =>
      var all := set c | c in s;
      ScansMeets(s, t, all);
      StarFront(s, ps, t, all);
      forall k | 0 <= k <= |s|
        ensures Scans(s[k..], t[1..]) <==> Meets(s[k..], t[1..], all)
      {
        ScansMeets(s[k..], t[1..], all);
      }
  }

  lemma StarFront(s: string, ps: seq<Part>, t: string, yes: set<char>)
    requires t != [] && t[0] == '*' && Read(t[1..]) == Broken(ps)
    ensures Meets(s, t, yes) <==> SomeTailMeets(s, t[1..], yes)
  {
    ConsClass(ps, AnyString);
    var all := [AnyString] + ps;
    if Meets(s, t, yes) {
      var k :| 0 <= k < |s| && s[k] in yes && Denotes(all, s[..k]);
      var x :| 0 <= x <= k && Denotes(ps, s[..k][x..]);
      assert s[..k][x..] == s[x..][..k - x] && s[x..][k - x] in yes;
      assert Meets(s[x..], t[1..], yes);
    }
    if SomeTailMeets(s, t[1..], yes) {
      var x :| 0 <= x <= |s| && Meets(s[x..], t[1..], yes);
      var k :| 0 <= k < |s[x..]| && s[x..][k] in yes && Denotes(ps, s[x..][..k]);
      assert s[..x + k][x..] == s[x..][..k];
      assert s[x + k] in yes && Denotes(all, s[..x + k]);
    }
  }

  // Reading on from tail to tail.
  lemma NextTailMatches(s: string, t: string)
    requires s != []
    ensures SomeTailMatches(s, t) <==> Matches(s, t) || SomeTailMatches(s[1..], t)
  {
    if SomeTailMatches(s, t) {
      var k :| 0 <= k <= |s| && Matches(s[k..], t);
      assert if k == 0 then s[k..] == s else s[k..] == s[1..][k - 1..];
    } else {
      assert s[0..] == s && !Matches(s[0..], t);
      forall k | 0 <= k <= |s[1..]|
        ensures !Matches(s[1..][k..], t)
      {
        assert s[1..][k..] == s[k + 1..];
      }
    }
  }

  lemma NextTailMeets(s: string, t: string, yes: set<char>)
    requires s != []
    ensures SomeTailMeets(s, t, yes) <==> Meets(s, t, yes) || SomeTailMeets(s[1..], t, yes)
  {
    if SomeTailMeets(s, t, yes) {
      var k :| 0 <= k <= |s| && Meets(s[k..], t, yes);
      assert if k == 0 then s[k..] == s else s[k..] == s[1..][k - 1..];
    } else {
      assert s[0..] == s && !Meets(s[0..], t, yes);
      forall k | 0 <= k <= |s[1..]|
        ensures !Meets(s[1..][k..], t, yes)
      {
        assert s[1..][k..] == s[k + 1..];
      }
    }
  }

  lemma NextTailScans(s: string, t: string)
    requires s != []
    ensures SomeTailScans(s, t) <==> Scans(s, t) || SomeTailScans(s[1..], t)
  {
    if SomeTailScans(s, t) {
      var k :| 0 <= k <= |s| && Scans(s[k..], t);
      assert if k == 0 then s[k..] == s else s[k..] == s[1..][k - 1..];
    } else {
      assert s[0..] == s && !Scans(s[0..], t);
      forall k | 0 <= k <= |s[1..]|
        ensures !Scans(s[1..][k..], t)
      {
        assert s[1..][k..] == s[k + 1..];
      }
    }
  }

  ghost function Meant(s: string, t: string): Outcome {
    if Scans(s, t) then Past else Answer(Matches(s, t))
  }

  // With nothing but the terminator behind the pattern, the code runs past the
  // end exactly if it scans an open class, and else decides the language.
  lemma {:induction false} RunMeans(s: string, t: string, j: nat)
    requires j <= |t| && NUL !in t
    ensures Run(s, t + [NUL], j) == Meant(s, t[j..])
    decreases |t| - j, 2
  {
    var u, m := t[j..], t + [NUL];
    if j < |t| {
      assert m[j] == u[0] == t[j] && t[j] in t && u[1..] == t[j + 1..];
      if u[0] == '[' {
        RunClassMeans(s, t, j);
      } else if u[0] == '*' {
        TakeMany(s, u);
        if j + 1 == |t| {
          LastStar(s, u);
        } else {
          assert t[j + 1] in t;
          RunTailsMeans(s, t, j + 1);
        }
      } else {
        TakeOne(s, if u[0] == '?' then AnyChar else Literal(u[0]), u, u[1..]);
        if s != [] {
          RunMeans(s[1..], t, j + 1);
        }
      }
    }
  }

  lemma LastStar(s: string, u: string)
    requires u == ['*']
    ensures SomeTailMatches(s, u[1..]) && !SomeTailScans(s, u[1..])
  {
    assert s[|s|..] == [];
    assert Matches(s[|s|..], u[1..]);
  }

  // Where the members of the class at j begin.
  function MembersAt(t: string, j: nat): (k: nat)
    requires j < |t|
    ensures j < k <= |t|
  {
    if j + 1 < |t| && t[j + 1] == '!' then j + 2 else j + 1
  }

  lemma ClassAt(t: string, j: nat)
    requires j < |t|
    ensures Negated(t[j..]) <==> MembersAt(t, j) == j + 2
    ensures ClassText(t[j..]) == t[MembersAt(t, j)..]
    ensures EmptyClass(t[j..]) <==> MembersAt(t, j) < |t| && t[MembersAt(t, j)] == ']'
  {
  }

  lemma RunClassIs(s: string, t: string, j: nat)
    requires j < |t| && NUL !in t
    ensures s == [] || EmptyClass(t[j..]) ==> RunClass(s, t + [NUL], j + 1) == Answer(false)
    ensures s != [] && !EmptyClass(t[j..]) ==>
      RunClass(s, t + [NUL], j + 1)
      == match Scan(t + [NUL], MembersAt(t, j), s[0], false)
         case Beyond => Past
         case Stop => Answer(false)
         case End(found, e) => if found == Negated(t[j..]) then Answer(false) else Run(s[1..], t + [NUL], e)
  {
    ClassAt(t, j);
    var m := t + [NUL];
    assert m[j + 1] == '!' <==> Negated(t[j..]);
    assert m[MembersAt(t, j)] == ']' <==> EmptyClass(t[j..]);
  }

  lemma RunClassMeans(s: string, t: string, j: nat)
    requires j < |t| && NUL !in t && t[j] == '['
    ensures RunClass(s, t + [NUL], j + 1) == Meant(s, t[j..])
    decreases |t| - j, 1
  {
    if s == [] || EmptyClass(t[j..]) {
      RunClassIs(s, t, j);
      NoCharacter(s, t[j..]);
    } else {
      ClassAt(t, j);
      match ReadMembers(ClassText(t[j..]))
      case Closed(ms, rest) => RunClosed(s, t, j, ms, rest);
      case Open =>
        RunClassIs(s, t, j);
        ScanMeans(t, MembersAt(t, j), s[0], false);
        OpenScans(s, t[j..]);
    }
  }

  // A class that has members and an end.
  lemma RunClosed(s: string, t: string, j: nat, ms: seq<Member>, rest: string)
    requires j < |t| && NUL !in t && t[j] == '[' && s != [] && !EmptyClass(t[j..])
    requires ReadMembers(ClassText(t[j..])) == Closed(ms, rest)
    ensures RunClass(s, t + [NUL], j + 1) == Meant(s, t[j..])
    decreases |t| - j, 0
  {
    ClassAt(t, j);
    RunClassIs(s, t, j);
    ClosedRest(t, j);
    var e := |t| - |rest|;
    ScanIn(t, MembersAt(t, j), s[0], ms, e, t + [NUL]);
    MeantClosed(s, t[j..], ms, rest);
    if InClass(ms, s[0]) != Negated(t[j..]) {
      RunMeans(s[1..], t, e);
    }
  }

  lemma OpenScans(s: string, u: string)
    requires u != [] && u[0] == '[' && s != [] && !EmptyClass(u) && ReadMembers(ClassText(u)).Open?
    ensures Meant(s, u) == Past
  {
    assert Denotes([], s[..0]);
  }

  lemma NoCharacter(s: string, u: string)
    requires u != [] && u[0] == '[' && (s == [] || EmptyClass(u))
    ensures Meant(s, u) == Answer(false)
  {
    if EmptyClass(u) {
      assert Read(u) == Whole([Class(Negated(u), [])]);
    } else if Read(u).Whole? {
      assert Read(u).parts[0].Class?;
    }
  }

  lemma MeantClosed(s: string, u: string, ms: seq<Member>, rest: string)
    requires s != [] && u != [] && u[0] == '[' && !EmptyClass(u) && ReadMembers(ClassText(u)) == Closed(ms, rest)
    ensures Meant(s, u) == if InClass(ms, s[0]) == Negated(u) then Answer(false) else Meant(s[1..], rest)
  {
    TakeOne(s, Class(Negated(u), ms), u, rest);
    NotEmpty(ClassText(u));
  }

  lemma NotEmpty(r: string)
    requires ReadMembers(r).Closed? && r != [] && r[0] != ']'
    ensures ReadMembers(r).members != []
  {
  }

  lemma {:induction false} RunTailsMeans(s: string, t: string, j: nat)
    requires j <= |t| && NUL !in t
    ensures RunTails(s, t + [NUL], j)
            == if SomeTailScans(s, t[j..]) then Past else Answer(SomeTailMatches(s, t[j..]))
    decreases |t| - j, |s| + 3
  {
    RunMeans(s, t, j);
    if s == [] {
      assert s[0..] == [];
      assert forall k :: 0 <= k <= |s| ==> s[k..] == s;
    } else {
      NextTailMatches(s, t[j..]);
      NextTailScans(s, t[j..]);
      RunTailsMeans(s[1..], t, j);
    }
  }

  // ---- What is behind the terminator ----

  lemma {:induction false} ScanMore(m: string, x: string, j: nat, d: char, found: bool)
    requires Scan(m, j, d, found) != Beyond
    ensures Scan(m + x, j, d, found) == Scan(m, j, d, found)
    decreases |m| - j
  {
    if j + 1 < |m| && m[j] != ']' {
      if m[j + 1] == '-' {
        ScanMore(m, x, j + 3, d, found || Signed(m[j]) <= Signed(d) <= Signed(m[j + 2]));
      } else {
        ScanMoreOne(m, x, j, d, found);
      }
    }
  }

  lemma ScanMoreOne(m: string, x: string, j: nat, d: char, found: bool)
    requires Scan(m, j, d, found) != Beyond && j + 1 < |m| && m[j] != ']' && m[j + 1] != '-'
    ensures Scan(m + x, j, d, found) == Scan(m, j, d, found)
    decreases |m| - j, 0
  {
    if m[j] == d || m[j] != NUL {
      ScanMore(m, x, j + 1, d, found || m[j] == d);
    }
  }

  // An answer that was found without running past the end stays what it is,
  // whatever comes behind.
  lemma {:induction false} RunMore(s: string, m: string, x: string, j: nat)
    requires Run(s, m, j) != Past
    ensures Run(s, m + x, j) == Run(s, m, j)
    decreases |m| - j, 0
  {
    if m[j] == NUL {
    } else if m[j] == '[' {
      RunClassMore(s, m, x, j + 1);
    } else if m[j] == '*' {
      if m[j + 1] != NUL {
        RunTailsMore(s, m, x, j + 1);
      }
    } else if s != [] && (m[j] == '?' || s[0] == m[j]) {
      RunMore(s[1..], m, x, j + 1);
    }
  }

  lemma RunClassMore(s: string, m: string, x: string, j: nat)
    requires RunClass(s, m, j) != Past
    ensures RunClass(s, m + x, j) == RunClass(s, m, j)
    decreases |m| - j, 0
  {
    var k := if m[j] == '!' then j + 1 else j;
    if m[k] != ']' && s != [] {
      ScanMore(m, x, k, s[0], false);
      match Scan(m, k, s[0], false)
      case End(found, e) =>
        if found != (m[j] == '!') {
          RunMore(s[1..], m, x, e);
        }
      case _ =>
    }
  }

  lemma {:induction false} RunTailsMore(s: string, m: string, x: string, j: nat)
    requires RunTails(s, m, j) != Past
    ensures RunTails(s, m + x, j) == RunTails(s, m, j)
    decreases |m| - j, |s| + 1
  {
    RunMore(s, m, x, j);
    if Run(s, m, j) == Answer(false) && s != [] {
      RunTailsMore(s[1..], m, x, j);
    }
  }

  // For every string, every pattern and everything behind the pattern: the code
  // reads behind the terminator if and only if it scans an open class.  If it
  // does not, its answer is whether the string is in the language.
  lemma StaysInside(s: string, t: string, behind: string)
    requires NUL !in t
    ensures Run(s, t + [NUL], 0) == Past <==> Scans(s, t)
    ensures !Scans(s, t) ==> Run(s, t + [NUL] + behind, 0) == Answer(Matches(s, t))
  {
    assert t[0..] == t;
    RunMeans(s, t, 0);
    if !Scans(s, t) {
      RunMore(s, t + [NUL], behind, 0);
    }
  }

  // ---- The answer is up to what is there ----

  // The length of the pattern up to the opening bracket of its open class.
  function OpenAt(u: string): (k: nat)
    requires Read(u).Broken?
    ensures 0 < k <= |u|
    decreases |u|
  {
    if u[0] != '[' then 1 + OpenAt(u[1..])
    else
      match ReadMembers(ClassText(u))
      case Open => 1
      case Closed(_, rest) => |u| - |rest| + OpenAt(rest)
  }

  lemma {:induction false} MembersRest(r: string)
    requires ReadMembers(r).Closed?
    ensures ReadMembers(r).rest == r[|r| - |ReadMembers(r).rest|..]
    decreases |r|
  {
    if r[0] != ']' {
      var x := if |r| > 1 && r[1] == '-' then r[3..] else r[1..];
      MembersRest(x);
      assert ReadMembers(r).rest == ReadMembers(x).rest;
    }
  }

  lemma ClosedRest(t: string, j: nat)
    requires j < |t| && ReadMembers(ClassText(t[j..])).Closed?
    ensures var rest := ReadMembers(ClassText(t[j..])).rest;
      |rest| < |t| - j && t[|t| - |rest|..] == rest
  {
    var r := ClassText(t[j..]);
    MembersRest(r);
    ClassAt(t, j);
    assert r == t[|t| - |r|..];
  }

  // The open class at c takes characters of the set only.
  ghost predicate TakesOnly(m: string, c: nat, yes: set<char>) {
    forall y: string :: NUL !in y && RunClass(y, m, c) == Answer(true) ==> y != [] && y[0] in yes
  }

  // It never runs past the end and takes all of them.
  ghost predicate TakesAll(m: string, c: nat, yes: set<char>) {
    forall y: string :: NUL !in y ==> RunClass(y, m, c) == Answer(y != [] && y[0] in yes)
  }

  // The pattern t with its terminator at the beginning of a memory, and its open
  // class behind position c.
  ghost predicate Holds(m: string, t: string, j: nat, c: nat, yes: set<char>, all: bool) {
    && j <= |t| < |m| && m[..|t|] == t && m[|t|] == NUL && NUL !in t
    && Read(t[j..]).Broken? && c == j + OpenAt(t[j..])
    && TakesOnly(m, c, yes) && (all ==> TakesAll(m, c, yes))
  }

  // What the answer is in such a memory.
  lemma {:induction false} TailMeans(s: string, m: string, t: string, j: nat, c: nat, yes: set<char>, all: bool)
    requires Holds(m, t, j, c, yes, all) && NUL !in s
    ensures Run(s, m, j) == Answer(true) ==> Meets(s, t[j..], yes)
    ensures all ==> Run(s, m, j) == Answer(Meets(s, t[j..], yes))
    decreases |t| - j, 2
  {
    var u := t[j..];
    assert m[j] == m[..|t|][j] == u[0] == t[j] && t[j] in t && u[1..] == t[j + 1..];
    if u[0] == '[' {
      TailClassMeans(s, m, t, j, c, yes, all);
    } else if u[0] == '*' {
      StarGoesOn(s, m, t, j, yes);
      TailTailsMean(s, m, t, j + 1, c, yes, all);
    } else {
      TakeFront(s, if u[0] == '?' then AnyChar else Literal(u[0]), Read(u[1..]).front, u, u[1..], yes);
      if s != [] {
        TailMeans(s[1..], m, t, j + 1, c, yes, all);
      }
    }
  }

  lemma StarGoesOn(s: string, m: string, t: string, j: nat, yes: set<char>)
    requires j < |t| < |m| && m[..|t|] == t && NUL !in t && t[j] == '*' && Read(t[j..]).Broken?
    ensures j + 1 < |t| && Read(t[j + 1..]).Broken? && Run(s, m, j) == RunTails(s, m, j + 1)
    ensures Meets(s, t[j..], yes) <==> SomeTailMeets(s, t[j + 1..], yes)
  {
    var u := t[j..];
    assert u[1..] == t[j + 1..] && Read(u[1..]).Broken?;
    assert t[j + 1] in t && m[j + 1] == m[..|t|][j + 1] == t[j + 1] && m[j] == m[..|t|][j];
    StarFront(s, Read(u[1..]).front, u, yes);
  }

  lemma {:induction false} TailTailsMean(s: string, m: string, t: string, j: nat, c: nat, yes: set<char>, all: bool)
    requires Holds(m, t, j, c, yes, all) && NUL !in s
    ensures RunTails(s, m, j) == Answer(true) ==> SomeTailMeets(s, t[j..], yes)
    ensures all ==> RunTails(s, m, j) == Answer(SomeTailMeets(s, t[j..], yes))
    decreases |t| - j, |s| + 3
  {
    TailMeans(s, m, t, j, c, yes, all);
    if s == [] {
      assert forall k :: 0 <= k <= |s| ==> s[k..] == s;
    } else {
      NextTailMeets(s, t[j..], yes);
      TailTailsMean(s[1..], m, t, j, c, yes, all);
    }
  }

  lemma TailClassMeans(s: string, m: string, t: string, j: nat, c: nat, yes: set<char>, all: bool)
    requires Holds(m, t, j, c, yes, all) && NUL !in s && t[j] == '['
    ensures RunClass(s, m, j + 1) == Answer(true) ==> Meets(s, t[j..], yes)
    ensures all ==> RunClass(s, m, j + 1) == Answer(Meets(s, t[j..], yes))
    decreases |t| - j, 1
  {
    match ReadMembers(ClassText(t[j..]))
    case Open => MeetsHere(s, t[j..], yes);
    case Closed(ms, rest) =>
      ClosedRest(t, j);
      if s == [] {
        ClassOfNothing(s, m, t, j);
      } else {
        TailClosed(s, m, t, j, c, ms, |t| - |rest|, yes, all);
      }
  }

  lemma ClassOfNothing(s: string, m: string, t: string, j: nat)
    requires s == [] && j < |t| < |m| && m[..|t|] == t && m[|t|] == NUL
    ensures RunClass(s, m, j + 1) == Answer(false)
  {
  }

  lemma MeetsHere(s: string, u: string, yes: set<char>)
    requires Read(u) == Broken([])
    ensures Meets(s, u, yes) <==> s != [] && s[0] in yes
  {
    if s != [] {
      assert s[..0] == [] && Denotes([], s[..0]);
    }
  }

  lemma TailClosed(s: string, m: string, t: string, j: nat, c: nat, ms: seq<Member>, e: nat, yes: set<char>, all: bool)
    requires Holds(m, t, j, c, yes, all) && NUL !in s && s != [] && t[j] == '[' && j < e <= |t|
    requires ReadMembers(ClassText(t[j..])) == Closed(ms, t[e..])
    ensures RunClass(s, m, j + 1) == Answer(true) ==> Meets(s, t[j..], yes)
    ensures all ==> RunClass(s, m, j + 1) == Answer(Meets(s, t[j..], yes))
    decreases |t| - j, 0
  {
    ReadsOn(t, j, ms, e);
    TailScan(s, m, t, j, ms, e);
    MeetsClosed(s, t[j..], ms, t[e..], yes);
    if InClass(ms, s[0]) != Negated(t[j..]) {
      TailMeans(s[1..], m, t, e, c, yes, all);
    }
  }

  lemma ReadsOn(t: string, j: nat, ms: seq<Member>, e: nat)
    requires j < e <= |t| && t[j] == '[' && Read(t[j..]).Broken?
    requires ReadMembers(ClassText(t[j..])) == Closed(ms, t[e..])
    ensures !EmptyClass(t[j..]) && Read(t[e..]).Broken? && j + OpenAt(t[j..]) == e + OpenAt(t[e..])
  {
  }

  lemma MeetsClosed(s: string, u: string, ms: seq<Member>, rest: string, yes: set<char>)
    requires s != [] && u != [] && u[0] == '[' && !EmptyClass(u) && Read(rest).Broken?
    requires ReadMembers(ClassText(u)) == Closed(ms, rest)
    ensures Meets(s, u, yes) <==> InClass(ms, s[0]) != Negated(u) && Meets(s[1..], rest, yes)
  {
    NotEmpty(ClassText(u));
    TakeFront(s, Class(Negated(u), ms), Read(rest).front, u, rest, yes);
  }

  // A closed class ends before what is behind the pattern.
  lemma TailScan(s: string, m: string, t: string, j: nat, ms: seq<Member>, e: nat)
    requires j < |t| < |m| && m[..|t|] == t && m[|t|] == NUL && NUL !in t
    requires t[j] == '[' && s != [] && !EmptyClass(t[j..]) && e <= |t|
    requires ReadMembers(ClassText(t[j..])) == Closed(ms, t[e..])
    ensures RunClass(s, m, j + 1) == if InClass(ms, s[0]) == Negated(t[j..]) then Answer(false) else Run(s[1..], m, e)
  {
    ClassAt(t, j);
    RunClassIn(s, m, t, j);
    ScanClosed(m, t, MembersAt(t, j), s[0], ms, e);
  }

  lemma ScanClosed(m: string, t: string, k: nat, d: char, ms: seq<Member>, e: nat)
    requires k <= |t| < |m| && m[..|t|] == t && m[|t|] == NUL && NUL !in t && e <= |t|
    requires ReadMembers(t[k..]) == Closed(ms, t[e..])
    ensures Scan(m, k, d, false) == End(InClass(ms, d), e)
  {
    var base, x := t + [NUL], m[|t| + 1..];
    assert m == base + x;
    ScanIn(t, k, d, ms, e, base);
    ScanMore(base, x, k, d, false);
  }

  lemma RunClassIn(s: string, m: string, t: string, j: nat)
    requires j < |t| < |m| && m[..|t|] == t && m[|t|] == NUL && NUL !in t && s != [] && !EmptyClass(t[j..])
    ensures RunClass(s, m, j + 1)
            == match Scan(m, MembersAt(t, j), s[0], false)
               case Beyond => Past
               case Stop => Answer(false)
               case End(found, e) => if found == Negated(t[j..]) then Answer(false) else Run(s[1..], m, e)
  {
    ClassAt(t, j);
    var k := MembersAt(t, j);
    assert forall i :: 0 <= i < |t| ==> m[i] == m[..|t|][i] == t[i];
    assert m[j + 1] == '!' <==> Negated(t[j..]);
    assert m[k] == ']' <==> EmptyClass(t[j..]);
  }

  predicate StartsOpen(u: string) {
    u != [] && u[0] == '[' && !EmptyClass(u) && ReadMembers(ClassText(u)).Open?
  }

  lemma {:induction false} OpenIs(u: string)
    requires Read(u).Broken?
    ensures StartsOpen(u[OpenAt(u) - 1..])
    decreases |u|
  {
    if u[0] != '[' {
      OpenIs(u[1..]);
      assert u[1..][OpenAt(u[1..]) - 1..] == u[OpenAt(u) - 1..];
    } else {
      match ReadMembers(ClassText(u))
      case Open => assert u[0..] == u;
      case Closed(_, rest) =>
        OpenIs(rest);
        SameRest(u, rest);
    }
  }

  lemma SameRest(u: string, rest: string)
    requires u != [] && u[0] == '[' && !EmptyClass(u) && Read(rest).Broken? && Read(u).Broken?
    requires ReadMembers(ClassText(u)).Closed? && ReadMembers(ClassText(u)).rest == rest
    ensures u[OpenAt(u) - 1..] == rest[OpenAt(rest) - 1..]
  {
    assert u[0..] == u;
    ClosedRest(u, 0);
    var e := |u| - |rest|;
    assert u[e..] == rest && OpenAt(u) == e + OpenAt(rest);
  }

  // An open class ends with a range that has no upper end; the terminator is
  // then taken for it.
  predicate Dangling(r: string)
    decreases |r|
  {
    |r| > 1 && if r[1] == '-' then |r| == 2 || Dangling(r[3..]) else Dangling(r[1..])
  }

  // A character is found among the members before the terminator.
  predicate SoFar(r: string, d: char)
    decreases |r|
  {
    r != [] &&
    if |r| > 1 && r[1] == '-' then
      if |r| == 2 then IsMember(Span(r[0], NUL), d) else IsMember(Span(r[0], r[2]), d) || SoFar(r[3..], d)
    else r[0] == d || SoFar(r[1..], d)
  }

  // Scanning an open class gets to the terminator or just behind it.
  lemma {:induction false} OpenScan(t: string, x: string, k: nat, d: char, found: bool)
    requires k <= |t| && NUL !in t && ReadMembers(t[k..]).Open?
    ensures var m, r := t + [NUL] + x, t[k..];
      Scan(m, k, d, found) == Scan(m, if Dangling(r) then |t| + 1 else |t|, d, found || SoFar(r, d))
    decreases |t| - k
  {
    var m, r := t + [NUL] + x, t[k..];
    if r != [] {
      assert m[k] == r[0] && m[k] in t && (|r| > 1 ==> m[k + 1] == r[1]) && (|r| == 1 ==> m[k + 1] == NUL);
      if |r| > 1 && r[1] == '-' {
        if |r| > 2 {
          assert r[3..] == t[k + 3..] && m[k + 2] == r[2];
          OpenScan(t, x, k + 3, d, found || IsMember(Span(r[0], r[2]), d));
        }
      } else {
        assert r[1..] == t[k + 1..];
        OpenScan(t, x, k + 1, d, found || r[0] == d);
      }
    }
  }

  // The open class at position j against the beginning of a string.
  lemma OpenClassIs(y: string, t: string, x: string, j: nat)
    requires j < |t| && NUL !in t && !EmptyClass(t[j..]) && ReadMembers(ClassText(t[j..])).Open?
    ensures var m, r := t + [NUL] + x, ClassText(t[j..]);
      RunClass(y, m, j + 1)
      == if y == [] then Answer(false)
         else
           match Scan(m, if Dangling(r) then |t| + 1 else |t|, y[0], SoFar(r, y[0]))
           case Beyond => Past
           case Stop => Answer(false)
           case End(found, e) => if found == Negated(t[j..]) then Answer(false) else Run(y[1..], m, e)
  {
    ClassAt(t, j);
    var m := t + [NUL] + x;
    assert m[..|t|] == t;
    if y == [] {
      ClassOfNothing(y, m, t, j);
    } else {
      RunClassIn(y, m, t, j);
      OpenScan(t, x, MembersAt(t, j), y[0], false);
    }
  }

  // What makes an open class take nothing: another terminator.
  const NOTHING := [NUL, NUL]

  lemma NothingTaken(t: string, j: nat)
    requires j < |t| && NUL !in t && !EmptyClass(t[j..]) && ReadMembers(ClassText(t[j..])).Open?
    ensures TakesAll(t + [NUL] + NOTHING, j + 1, {})
  {
    var m := t + [NUL] + NOTHING;
    forall y: string | NUL !in y
      ensures RunClass(y, m, j + 1) == Answer(false)
    {
      OpenClassIs(y, t, NOTHING, j);
      assert y != [] ==> y[0] in y;
      assert m[|t|] == m[|t| + 1] == m[|t| + 2] == NUL;
    }
  }

  // The end of a class and a star; a class that is not negated is made to take
  // all characters up to d first.
  function Closing(negated: bool, d: char): string {
    (if negated then [] else ['\U{80}', '-', d]) + [']', '*', NUL]
  }

  lemma ClosingEnds(pre: string, negated: bool, d: char, c: char, found: bool, y: string)
    ensures var m := pre + Closing(negated, d);
      && Scan(m, |pre|, c, found) == End(found || (!negated && Signed(c) <= Signed(d)), |m| - 2)
      && Run(y, m, |m| - 2) == Answer(true)
  {
    var m, p := pre + Closing(negated, d), |pre|;
    if !negated {
      assert m[p] == '\U{80}' && m[p + 1] == '-' && m[p + 2] == d && m[p + 3] == ']';
    } else {
      assert m[p] == ']';
    }
    assert m[|m| - 2] == '*' && m[|m| - 1] == NUL;
  }

  // The same behind an open class, whose terminator is made the lower end of a
  // range that is empty.
  function Behind(r: string, negated: bool, d: char): string {
    (if Dangling(r) then [] else ['-', '\U{80}']) + Closing(negated, d)
  }

  function Taken(r: string, negated: bool, d: char): set<char> {
    set c: char | (SoFar(r, c) || (!negated && Signed(c) <= Signed(d))) != negated
  }

  lemma BehindEnds(t: string, r: string, negated: bool, d: char, c: char, found: bool, y: string)
    ensures var m := t + [NUL] + Behind(r, negated, d);
      && Scan(m, if Dangling(r) then |t| + 1 else |t|, c, found)
         == End(found || (!negated && Signed(c) <= Signed(d)), |m| - 2)
      && Run(y, m, |m| - 2) == Answer(true)
  {
    var m := t + [NUL] + Behind(r, negated, d);
    if Dangling(r) {
      ClosingEnds(t + [NUL], negated, d, c, found, y);
      assert m == (t + [NUL]) + Closing(negated, d);
    } else {
      var pre := t + [NUL, '-', '\U{80}'];
      ClosingEnds(pre, negated, d, c, found, y);
      assert m == pre + Closing(negated, d);
      assert m[|t|] == NUL && m[|t| + 1] == '-' && m[|t| + 2] == '\U{80}';
    }
  }

  lemma BehindTaken(t: string, j: nat, d: char)
    requires j < |t| && NUL !in t && !EmptyClass(t[j..]) && ReadMembers(ClassText(t[j..])).Open?
    ensures var r, negated := ClassText(t[j..]), Negated(t[j..]);
      TakesAll(t + [NUL] + Behind(r, negated, d), j + 1, Taken(r, negated, d))
  {
    var r, negated := ClassText(t[j..]), Negated(t[j..]);
    var x := Behind(r, negated, d);
    forall y: string | NUL !in y
      ensures RunClass(y, t + [NUL] + x, j + 1) == Answer(y != [] && y[0] in Taken(r, negated, d))
    {
      OpenClassIs(y, t, x, j);
      if y != [] {
        BehindEnds(t, r, negated, d, y[0], SoFar(r, y[0]), y[1..]);
      }
    }
  }

  lemma {:induction false} FoundStays(m: string, j: nat, d: char)
    ensures Scan(m, j, d, true).End? ==> Scan(m, j, d, true).found
    decreases |m| - j
  {
    if j + 1 < |m| && m[j] != ']' {
      FoundStays(m, if m[j + 1] == '-' then j + 3 else j + 1, d);
    }
  }

  // A negated class takes nothing that it has found already, whatever is behind
  // it.
  lemma NegatedTakes(t: string, x: string, j: nat)
    requires j < |t| && NUL !in t && !EmptyClass(t[j..]) && ReadMembers(ClassText(t[j..])).Open?
    requires Negated(t[j..])
    ensures TakesOnly(t + [NUL] + x, j + 1, set c: char | !SoFar(ClassText(t[j..]), c))
  {
    var m, r := t + [NUL] + x, ClassText(t[j..]);
    forall y: string | NUL !in y && RunClass(y, m, j + 1) == Answer(true)
      ensures y != [] && !SoFar(r, y[0])
    {
      OpenClassIs(y, t, x, j);
      if y != [] && SoFar(r, y[0]) {
        FoundStays(m, if Dangling(r) then |t| + 1 else |t|, y[0]);
      }
    }
  }

  // What is left of the pattern from its open class on.
  function OpenClass(t: string): string
    requires Read(t).Broken?
  {
    t[OpenAt(t) - 1..]
  }

  // The match gets as far as the open class with a character that the class has
  // not ruled out: it is not negated, or has not found the character so far.
  ghost predicate Undecided(s: string, t: string) {
    Read(t).Broken? && exists k ::
      && 0 <= k < |s| && Denotes(Read(t).front, s[..k])
      && !(Negated(OpenClass(t)) && SoFar(ClassText(OpenClass(t)), s[k]))
  }

  lemma OpenFalse(s: string, t: string)
    requires NUL !in t && NUL !in s && Scans(s, t)
    ensures Run(s, t + [NUL] + NOTHING, 0) == Answer(false)
  {
    assert t[0..] == t;
    OpenIs(t);
    NothingTaken(t, OpenAt(t) - 1);
    var m := t + [NUL] + NOTHING;
    assert m[..|t|] == t;
    TailMeans(s, m, t, 0, OpenAt(t), {}, true);
  }

  lemma OpenTrue(s: string, t: string) returns (x: string)
    requires NUL !in t && NUL !in s && Undecided(s, t)
    ensures Run(s, t + [NUL] + x, 0) == Answer(true)
  {
    assert t[0..] == t;
    OpenIs(t);
    var r, negated := ClassText(OpenClass(t)), Negated(OpenClass(t));
    var k :| 0 <= k < |s| && Denotes(Read(t).front, s[..k]) && !(negated && SoFar(r, s[k]));
    x := Behind(r, negated, s[k]);
    BehindTaken(t, OpenAt(t) - 1, s[k]);
    assert s[k] in Taken(r, negated, s[k]);
    var m := t + [NUL] + x;
    assert m[..|t|] == t;
    TailMeans(s, m, t, 0, OpenAt(t), Taken(r, negated, s[k]), true);
  }

  lemma OpenNeverTrue(s: string, t: string, x: string)
    requires NUL !in t && NUL !in s && Scans(s, t) && Run(s, t + [NUL] + x, 0) == Answer(true)
    ensures Undecided(s, t)
  {
    var k :| 0 <= k < |s| && Denotes(Read(t).front, s[..k]);
    assert t[0..] == t;
    OpenIs(t);
    if Negated(OpenClass(t)) {
      var yes := set c: char | !SoFar(ClassText(OpenClass(t)), c);
      NegatedTakes(t, x, OpenAt(t) - 1);
      var m := t + [NUL] + x;
      assert m[..|t|] == t;
      TailMeans(s, m, t, 0, OpenAt(t), yes, false);
    }
  }

  // Once the code scans an open class, what is behind the pattern can always
  // make the answer 0.  It can make it 1, though no string is in the language,
  // if and only if the class has not ruled out all the characters that it is
  // compared with.
  lemma BehindDecides(s: string, t: string)
    requires NUL !in t && NUL !in s && Scans(s, t)
    ensures !Matches(s, t)
    ensures exists x :: Run(s, t + [NUL] + x, 0) == Answer(false)
    ensures (exists x :: Run(s, t + [NUL] + x, 0) == Answer(true)) <==> Undecided(s, t)
  {
    OpenFalse(s, t);
    if Undecided(s, t) {
      var x := OpenTrue(s, t);
    }
    if x :| Run(s, t + [NUL] + x, 0) == Answer(true) {
      OpenNeverTrue(s, t, x);
    }
  }

  // Once it does, the answer is up to what is there: "[a" with "-z]" behind it
  // matches "a", though no string is in its language.
  lemma OpenClassExample()
    ensures Scans("a", "[a") && !Matches("a", "[a")
    ensures Run("a", "[a" + [NUL] + "-z]" + [NUL], 0) == Answer(true)
    ensures Run("a", "[a" + [NUL] + "b" + [NUL], 0) == Answer(false)
  {
    assert ReadMembers("a") == Open;
    assert Denotes([], "a"[..0]);
    var m := "[a" + [NUL] + "-z]" + [NUL];
    assert Scan(m, 1, 'a', false) == Scan(m, 2, 'a', true) == Scan(m, 5, 'a', true) == End(true, 6);
    assert Run([], m, 6) == Answer(true);
    var n := "[a" + [NUL] + "b" + [NUL];
    assert Scan(n, 1, 'a', false) == Scan(n, 2, 'a', true) == Stop;
  }

  // The same for a range without an upper end.
  lemma OpenRangeExample()
    ensures Scans("a", "[a-") && !Matches("a", "[a-")
    ensures Run("a", "[a-" + [NUL] + "a]" + [NUL], 0) == Answer(true)
    ensures Run("a", "[a-" + [NUL] + "b]" + [NUL], 0) == Answer(false)
  {
    assert ReadMembers("a-") == Open;
    assert Denotes([], "a"[..0]);
    var m := "[a-" + [NUL] + "a]" + [NUL];
    assert Scan(m, 1, 'a', false) == Scan(m, 4, 'a', false) == Scan(m, 5, 'a', true) == End(true, 6);
    assert "a"[1..] == [] && Run([], m, 6) == Answer(true);
    assert Run("a", m, 0) == RunClass("a", m, 1) == Answer(true);
    var n := "[a-" + [NUL] + "b]" + [NUL];
    assert Scan(n, 1, 'a', false) == Scan(n, 4, 'a', false) == Scan(n, 5, 'a', false) == End(false, 6);
  }

  // A negated class that has found the character takes nothing, whatever is
  // behind it.
  lemma RuledOutExample()
    ensures Scans("a", "[!a") && !Undecided("a", "[!a")
  {
    assert ReadMembers("a") == Open && Read("[!a") == Broken([]);
    assert Denotes([], "a"[..0]);
    assert "[!a"[0..] == "[!a" && SoFar("a", 'a');
  }

  // Characters above 127 come before all others in a range.
  lemma SignedRangeExample()
    ensures !Matches("b", "[a-\U{FF}]") && Matches("\U{80}", "[\U{80}-a]")
  {
    assert ReadMembers("a-\U{FF}]") == Closed([Span('a', '\U{FF}')], []);
    assert ReadMembers("\U{80}-a]") == Closed([Span('\U{80}', 'a')], []);
    assert !InClass([Span('a', '\U{FF}')], 'b');
    var ms := [Span('\U{80}', 'a')];
    assert IsMember(ms[0], '\U{80}');
    assert Read([]) == Whole([]);
    assert Read("[\U{80}-a]") == Whole([Class(false, ms)]);
  }

  // ---- The matcher ----

  // src/getopt.c:348-358
  method ScanClass(m: string, j0: nat, d: char) returns (r: Scanned)
    ensures r == Scan(m, j0, d, false)
  {
    var j, found := j0, false;
    while j < |m| && m[j] != ']'
      invariant Scan(m, j, d, found) == Scan(m, j0, d, false)
      decreases |m| - j
    {
      if j + 1 == |m| {
        return Beyond;
      }
      var c := m[j];
      if m[j + 1] == '-' {
        if Signed(c) <= Signed(d) {
          if j + 2 == |m| {
            return Beyond;
          }
          if Signed(d) <= Signed(m[j + 2]) {
            found := true;
          }
        }
        j := j + 3;
      } else if c == d {
        found, j := true, j + 1;
      } else if c == NUL {
        return Stop;
      } else {
        j := j + 1;
      }
    }
    return if j < |m| then End(found, j + 1) else Beyond;
  }

  // src/getopt.c:335-380: the pattern is at the beginning of the memory m.
  method Match(s: string, m: string) returns (r: Outcome)
    ensures r == Run(s, m, 0)
    ensures forall n :: 0 <= n < |m| && m[n] == NUL && NUL !in m[..n] && !Scans(s, m[..n]) ==>
              r == Answer(Matches(s, m[..n]))
  {
    r := MatchFrom(s, m, 0);
    forall n | 0 <= n < |m| && m[n] == NUL && NUL !in m[..n] && !Scans(s, m[..n])
      ensures r == Answer(Matches(s, m[..n]))
    {
      assert m == m[..n] + [NUL] + m[n + 1..];
      StaysInside(s, m[..n], m[n + 1..]);
    }
  }

  method MatchFrom(s: string, m: string, j0: nat) returns (r: Outcome)
    ensures r == Run(s, m, j0)
    decreases |m| - j0, 0
  {
    var i, j := 0, j0;
    assert s[0..] == s;
    while j < |m| && m[j] != NUL
      invariant i <= |s| && j0 <= j && Run(s[i..], m, j) == Run(s, m, j0)
      decreases |m| - j
    {
      var c := m[j];
      assert i < |s| ==> s[i..][0] == s[i] && s[i..][1..] == s[i + 1..];
      j := j + 1;
      if c == '[' {
        var head := MatchClass(s, i, m, j);
        if !head.End? {
          return if head.Stop? then Answer(false) else Past;
        }
        i, j := i + 1, head.j;
      } else if c == '*' {
        if j == |m| {
          return Past;
        } else if m[j] == NUL {
          return Answer(true);
        }
        r := MatchTails(s, i, m, j);
        return;
      } else {
        if i == |s| || (c != '?' && s[i] != c) {
          return Answer(false);
        }
        i := i + 1;
      }
    }
    return if j < |m| then Answer(i == |s|) else Past;
  }

  // src/getopt.c:345-360: a character class against one character; Stop if the
  // answer is no.
  method MatchClass(s: string, i: nat, m: string, j0: nat) returns (r: Scanned)
    requires i <= |s|
    ensures r.Beyond? ==> RunClass(s[i..], m, j0) == Past
    ensures r.Stop? ==> RunClass(s[i..], m, j0) == Answer(false)
    ensures r.End? ==> i < |s| && j0 < r.j <= |m| && RunClass(s[i..], m, j0) == Run(s[i + 1..], m, r.j)
  {
    if j0 >= |m| {
      return Beyond;
    }
    var j := j0;
    var negated := m[j] == '!';
    if negated {
      j := j + 1;
    }
    if j == |m| {
      return Beyond;
    }
    if m[j] == ']' || i == |s| {
      return Stop;
    }
    assert s[i..][0] == s[i] && s[i..][1..] == s[i + 1..];
    r := ScanClass(m, j, s[i]);
    if r.End? && r.found == negated {
      return Stop;
    }
  }

  // src/getopt.c:366-370
  method MatchTails(s: string, i: nat, m: string, j: nat) returns (r: Outcome)
    requires i <= |s| && j < |m|
    ensures r == RunTails(s[i..], m, j)
    decreases |m| - j, 1
  {
    var k := i;
    while true
      invariant i <= k <= |s| && RunTails(s[k..], m, j) == RunTails(s[i..], m, j)
      decreases |s| - k
    {
      r := MatchFrom(s[k..], m, j);
      if r != Answer(false) || k == |s| {
        return;
      }
      assert s[k..][1..] == s[k + 1..];
      k := k + 1;
    }
  }
}
