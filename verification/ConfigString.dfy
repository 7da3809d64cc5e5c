/** The key/value config parser and the simplifier that prints into the buffer it is reading. */
module ConfigString {
  import opened Common

  const NUL: char := '\0'

  predicate IsBreak(c: char) {
    c == '|' || c == '\n' || c == '\r'
  }

  predicate IsSpace(c: char) {
    c == ' ' || c == '\t' || c == '\U{000B}'
  }

  datatype Pair = Pair(key: string, val: string)

  // ---- what a config string means ----

  /** Where the key, the first `=` and the value of a line stand. */
  datatype Place = Place(keyBegin: nat, keyEnd: nat, equals: nat, valBegin: nat, valEnd: nat)

  ghost predicate Within(at: Place, from: nat, to: nat) {
    from <= at.keyBegin < at.keyEnd <= at.equals < at.valBegin < at.valEnd <= to
  }

  ghost function Text(s: string, at: Place): Pair
    requires Within(at, 0, |s|)
  {
    Pair(s[at.keyBegin..at.keyEnd], s[at.valBegin..at.valEnd])
  }

  /** The line is a key, the line's first `=` and a value, each with nothing but space around it. */
  ghost predicate Stands(line: string, at: Place) {
    && Within(at, 0, |line|)
    && (forall i :: 0 <= i < at.keyBegin ==> IsSpace(line[i]))
    && !IsSpace(line[at.keyBegin]) && line[at.keyBegin] != '#' && !IsSpace(line[at.keyEnd - 1])
    && (forall i :: at.keyEnd <= i < at.equals ==> IsSpace(line[i]))
    && (forall i :: 0 <= i < at.equals ==> line[i] != '=') && line[at.equals] == '='
    && (forall i :: at.equals < i < at.valBegin ==> IsSpace(line[i]))
    && !IsSpace(line[at.valBegin]) && !IsSpace(line[at.valEnd - 1])
    && (forall i :: at.valEnd <= i < |line| ==> IsSpace(line[i]))
  }

  lemma {:induction false} StandsOnce(line: string, a: Place, b: Place)
    requires Stands(line, a) && Stands(line, b)
    ensures a == b
  {
    assert a.keyBegin == b.keyBegin;
    assert a.equals == b.equals;
    assert a.keyEnd == b.keyEnd;
    assert a.valBegin == b.valBegin;
  }

  /** The pair a line holds; blank lines, comments, and lines without a key, `=` or value hold none. */
  ghost function PairOf(line: string): Option<Pair> {
    if exists at :: Stands(line, at) then
      var at :| Stands(line, at);
      Some(Text(line, at))
    else
      None
  }

  lemma {:induction false} PairIsRead(line: string, at: Place)
    requires Stands(line, at)
    ensures PairOf(line) == Some(Text(line, at))
  {
    var other :| Stands(line, other) && PairOf(line) == Some(Text(line, other));
    StandsOnce(line, at, other);
  }

  lemma {:induction false} PairHasPlace(line: string) returns (at: Place)
    requires PairOf(line).Some?
    ensures Stands(line, at) && PairOf(line) == Some(Text(line, at))
  {
    at :| Stands(line, at);
    PairIsRead(line, at);
  }

  /** `k` is the place of the first line break, or the length if there is none. */
  ghost predicate IsFirstBreak(s: string, k: nat) {
    k <= |s| && (forall i :: 0 <= i < k ==> !IsBreak(s[i])) && (k < |s| ==> IsBreak(s[k]))
  }

  lemma {:induction false} FirstBreakExists(s: string)
    ensures exists k: nat :: IsFirstBreak(s, k)
  {
    var k := 0;
    while k < |s| && !IsBreak(s[k])
      invariant k <= |s| && forall i :: 0 <= i < k ==> !IsBreak(s[i])
    {
      k := k + 1;
    }
    assert IsFirstBreak(s, k);
  }

  ghost function FirstBreak(s: string): (k: nat)
    ensures IsFirstBreak(s, k)
  {
    FirstBreakExists(s);
    var k: nat :| IsFirstBreak(s, k);
    k
  }

  function AsSeq(p: Option<Pair>): seq<Pair> {
    if p.Some? then [p.value] else []
  }

  /** The ordered pairs of a config: every line break character ends a line. */
  ghost function Pairs(s: string): seq<Pair> {
    var b := FirstBreak(s);
    AsSeq(PairOf(s[..b])) + if b == |s| then [] else Pairs(s[b + 1..])
  }

  function Line(p: Pair): string {
    p.key + "=" + p.val + "\n"
  }

  /** The canonical text of a list of pairs. */
  function Render(ps: seq<Pair>): string {
    if ps == [] then "" else Line(ps[0]) + Render(ps[1..])
  }

  /** What the consumer's state is after it was given pairs until it asked to stop. */
  function Consumed<S>(ps: seq<Pair>, consumer: (S, Pair) -> (S, bool), state: S): S {
    if ps == [] then state
    else
      var (next, stop) := consumer(state, ps[0]);
      if stop then next else Consumed(ps[1..], consumer, next)
  }

  // ---- canonical text ----

  /** The pairs a config can hold. */
  ghost predicate Printable(p: Pair) {
    && p.key != "" && p.val != ""
    && !IsSpace(p.key[0]) && p.key[0] != '#' && !IsSpace(p.key[|p.key| - 1])
    && !IsSpace(p.val[0]) && !IsSpace(p.val[|p.val| - 1])
    && (forall i :: 0 <= i < |p.key| ==> !IsBreak(p.key[i]) && p.key[i] != '=')
    && (forall i :: 0 <= i < |p.val| ==> !IsBreak(p.val[i]))
  }

  lemma {:induction false} StandingIsPrintable(line: string, at: Place)
    requires Stands(line, at) && forall i :: 0 <= i < |line| ==> !IsBreak(line[i])
    ensures Printable(Text(line, at))
  {
    var p := Text(line, at);
    assert forall i :: 0 <= i < |p.key| ==> p.key[i] == line[at.keyBegin + i];
    assert forall i :: 0 <= i < |p.val| ==> p.val[i] == line[at.valBegin + i];
  }

  lemma {:induction false} LineIsPrintable(line: string)
    requires forall i :: 0 <= i < |line| ==> !IsBreak(line[i])
    ensures PairOf(line).Some? ==> Printable(PairOf(line).value)
  {
    if PairOf(line).Some? {
      var at := PairHasPlace(line);
      StandingIsPrintable(line, at);
    }
  }

  lemma {:induction false} PairsArePrintable(s: string)
    ensures forall p :: p in Pairs(s) ==> Printable(p)
    decreases |s|
  {
    var b := FirstBreak(s);
    LineIsPrintable(s[..b]);
    if b < |s| {
      PairsArePrintable(s[b + 1..]);
    }
  }

  /** A printed pair reads back as itself. */
  lemma {:induction false} PrintedPairReads(p: Pair)
    requires Printable(p)
    ensures PairOf(p.key + "=" + p.val) == Some(p)
  {
    var line, k := p.key + "=" + p.val, |p.key|;
    assert forall i :: 0 <= i < k ==> line[i] == p.key[i];
    assert line[k + 1] == p.val[0] && line[|line| - 1] == p.val[|p.val| - 1];
    var at := Place(0, k, k, k + 1, |line|);
    assert Stands(line, at);
    PairIsRead(line, at);
    assert line[0..k] == p.key && line[k + 1..|line|] == p.val;
  }

  lemma {:induction false} PairsUnfold(s: string, e: nat)
    requires IsFirstBreak(s, e)
    ensures Pairs(s) == AsSeq(PairOf(s[..e])) + if e == |s| then [] else Pairs(s[e + 1..])
  {
    hide PairOf;
  }

  lemma {:induction false} NothingLeft()
    ensures Pairs("") == []
  {
    PairsUnfold("", 0);
    assert ""[..0] == "";
    assert forall at :: !Stands("", at);
  }

  lemma {:induction false} PairsOfLine(line: string, rest: string)
    requires forall i :: 0 <= i < |line| ==> !IsBreak(line[i])
    ensures Pairs(line + "\n" + rest) == AsSeq(PairOf(line)) + Pairs(rest)
  {
    var s := line + "\n" + rest;
    assert forall i :: 0 <= i < |line| ==> s[i] == line[i];
    assert s[|line|] == '\n';
    PairsUnfold(s, |line|);
    assert s[..|line|] == line && s[|line| + 1..] == rest;
  }

  lemma {:induction false} RenderReads(ps: seq<Pair>)
    requires forall p :: p in ps ==> Printable(p)
    ensures Pairs(Render(ps)) == ps
  {
    if ps == [] {
      NothingLeft();
    } else {
      var p, rest := ps[0], Render(ps[1..]);
      var line := p.key + "=" + p.val;
      assert Printable(p);
      forall i | 0 <= i < |line| ensures !IsBreak(line[i]) {
        assert i < |p.key| ==> line[i] == p.key[i];
        assert i > |p.key| ==> line[i] == p.val[i - |p.key| - 1];
      }
      assert Render(ps) == line + "\n" + rest;
      PairsOfLine(line, rest);
      PrintedPairReads(p);
      RenderReads(ps[1..]);
      assert ps == [p] + ps[1..];
    }
  }

  /** Printing keeps the meaning of every config, whatever it looked like. */
  lemma {:induction false} SimplifiedReadsTheSame(s: string)
    ensures Pairs(Render(Pairs(s))) == Pairs(s)
  {
    PairsArePrintable(s);
    RenderReads(Pairs(s));
  }

  /** A simplified config ends in a line break, and simplifying it again gives the same text. */
  lemma {:induction false} SimplifyIsIdempotent(s: string)
    ensures Render(Pairs(Render(Pairs(s)))) == Render(Pairs(s))
    ensures EmptyOrEndsInBreak(Render(Pairs(s)))
  {
    SimplifiedReadsTheSame(s);
    RenderEndsInBreak(Pairs(s));
  }

  lemma {:induction false} RenderConcat(a: seq<Pair>, b: seq<Pair>)
    ensures Render(a + b) == Render(a) + Render(b)
  {
    hide Line;
    if a == [] {
      assert a + b == b;
    } else {
      RenderConcat(a[1..], b);
      assert (a + b)[0] == a[0] && (a + b)[1..] == a[1..] + b;
      var first, more, rest := Line(a[0]), Render(a[1..]), Render(b);
      assert first + (more + rest) == (first + more) + rest;
    }
  }

  lemma {:induction false} RenderEndsInBreak(ps: seq<Pair>)
    ensures EmptyOrEndsInBreak(Render(ps))
  {
    if ps != [] {
      RenderEndsInBreak(ps[1..]);
    }
  }

  // ---- when the canonical text fits where the original stood ----

  predicate EmptyOrEndsInBreak(s: string) {
    s == "" || IsBreak(s[|s| - 1])
  }

  /** A line that is exactly a key, its first `=` at `q`, and a value: nothing in it is dropped. */
  predicate TightAt(line: string, q: nat) {
    && 0 < q < |line| - 1 && line[q] == '=' && (forall i :: 0 <= i < q ==> line[i] != '=')
    && !IsSpace(line[0]) && line[0] != '#' && !IsSpace(line[q - 1])
    && !IsSpace(line[q + 1]) && !IsSpace(line[|line| - 1])
  }

  predicate TightLine(line: string) {
    exists q | 0 <= q < |line| :: TightAt(line, q)
  }

  /** Every line is tight, with one break character between neighbours and none after the last. */
  ghost predicate Tight(s: string) {
    var b := FirstBreak(s);
    TightLine(s[..b]) && (b < |s| ==> Tight(s[b + 1..]))
  }

  lemma {:induction false} StandingLength(line: string, at: Place)
    requires Stands(line, at)
    ensures |Line(Text(line, at))| <= |line| + 1
    ensures |Line(Text(line, at))| == |line| + 1 ==> TightAt(line, at.equals)
  {
    var p := Text(line, at);
    assert |Line(p)| == |p.key| + |p.val| + 2;
  }

  lemma {:induction false} TightStands(line: string, q: nat)
    requires q < |line| && TightAt(line, q)
    ensures PairOf(line).Some? && |Line(PairOf(line).value)| == |line| + 1
  {
    hide PairOf;
    var at := Place(0, q, q, q + 1, |line|);
    PairIsRead(line, at);
    assert |Line(Text(line, at))| == |line| + 1;
  }

  lemma {:induction false} LineLength(line: string)
    ensures |Render(AsSeq(PairOf(line)))| <= |line| + 1
    ensures |Render(AsSeq(PairOf(line)))| == |line| + 1 <==> TightLine(line)
  {
    hide PairOf, TightAt, Stands, Line;
    if TightLine(line) {
      var q :| 0 <= q < |line| && TightAt(line, q);
      TightStands(line, q);
    }
    if PairOf(line).Some? {
      var at := PairHasPlace(line);
      StandingLength(line, at);
      assert Render([Text(line, at)]) == Line(Text(line, at)) + Render([]);
    }
  }

  /** The canonical text is one character too long exactly for a tight config, and fits every other. */
  lemma {:induction false} FitsUnlessTight(s: string)
    ensures |Render(Pairs(s))| <= |s| + 1
    ensures |Render(Pairs(s))| <= |s| <==> !Tight(s)
    decreases |s|
  {
    var b := FirstBreak(s);
    LineLength(s[..b]);
    if b < |s| {
      FitsUnlessTight(s[b + 1..]);
      RenderConcat(AsSeq(PairOf(s[..b])), Pairs(s[b + 1..]));
    } else {
      assert s[..b] == s;
      assert Pairs(s) == AsSeq(PairOf(s));
    }
  }

  /** So a config that ends in a line break is always safe to simplify. */
  lemma {:induction false} TrailingBreakIsNotTight(s: string)
    requires EmptyOrEndsInBreak(s)
    ensures !Tight(s)
    decreases |s|
  {
    var b := FirstBreak(s);
    if b < |s| {
      TrailingBreakIsNotTight(s[b + 1..]);
    }
  }

  /** The one-line config `a=b` without a line break does not fit. */
  lemma {:induction false} TightExample()
    ensures Tight("a=b") && |Render(Pairs("a=b"))| == 4
  {
    var s := "a=b";
    assert IsFirstBreak(s, 3);
    assert FirstBreak(s) == 3;
    assert s[..3] == s;
    assert TightAt(s, 1);
    FitsUnlessTight(s);
  }

  // ---- reading ----

  lemma {:induction false} BreaksHoldNothing(s: string, k: nat)
    requires k <= |s| && forall i :: 0 <= i < k ==> IsBreak(s[i])
    ensures Pairs(s) == Pairs(s[k..])
  {
    if k == 0 {
      assert s[0..] == s;
    } else {
      PairsOfLine("", s[1..]);
      PairsUnfold(s, 0);
      assert s[..0] == "";
      assert forall at :: !Stands("", at);
      BreaksHoldNothing(s[1..], k - 1);
      assert s[1..][k - 1..] == s[k..];
    }
  }

  /** A config is its first line, the breaks that end it, and the rest. */
  lemma {:induction false} LineThenRest(s: string, e: nat, k: nat)
    requires e <= k <= |s| && (e < |s| ==> e < k)
    requires forall i :: 0 <= i < e ==> !IsBreak(s[i])
    requires forall i :: e <= i < k ==> IsBreak(s[i])
    ensures Pairs(s) == AsSeq(PairOf(s[..e])) + Pairs(s[k..])
  {
    hide PairOf, Pairs;
    PairsUnfold(s, e);
    if e < |s| {
      var rest := s[e + 1..];
      BreaksHoldNothing(rest, k - e - 1);
      assert rest[k - e - 1..] == s[k..];
    } else {
      assert s[k..] == "";
      NothingLeft();
    }
  }

  /** `buf[from..n]` is a C string: its terminator is at `n`. */
  ghost predicate Terminated(buf: array<char>, from: nat, n: nat)
    reads buf
  {
    from <= n < buf.Length && buf[n] == NUL && forall i :: from <= i < n ==> buf[i] != NUL
  }

  /** The end of the whitespace that starts at `from`. */
  method SkipSpace(buf: array<char>, from: nat, ghost n: nat) returns (end: nat)
    requires Terminated(buf, from, n)
    ensures from <= end <= n && !IsSpace(buf[end])
    ensures forall i :: from <= i < end ==> IsSpace(buf[i])
  {
    end := from;
    while IsSpace(buf[end])
      invariant from <= end <= n
      invariant forall i :: from <= i < end ==> IsSpace(buf[i])
      decreases n - end
    {
      end := end + 1;
    }
  }

  /** The end of the run of line breaks that starts at `from`. */
  method SkipBreaks(buf: array<char>, from: nat, ghost n: nat) returns (end: nat)
    requires Terminated(buf, from, n)
    ensures from <= end <= n && !IsBreak(buf[end])
    ensures forall i :: from <= i < end ==> IsBreak(buf[i])
  {
    end := from;
    while IsBreak(buf[end])
      invariant from <= end <= n
      invariant forall i :: from <= i < end ==> IsBreak(buf[i])
      decreases n - end
    {
      end := end + 1;
    }
  }

  /** The first line break or terminator from `from` on. */
  method LineEnd(buf: array<char>, from: nat, ghost n: nat) returns (end: nat)
    requires Terminated(buf, from, n)
    ensures from <= end <= n && (end == n || IsBreak(buf[end]))
    ensures forall i :: from <= i < end ==> !IsBreak(buf[i])
  {
    end := from;
    while buf[end] != NUL && !IsBreak(buf[end])
      invariant from <= end <= n
      invariant forall i :: from <= i < end ==> !IsBreak(buf[i])
      decreases n - end
    {
      end := end + 1;
    }
  }

  /** Steps back over trailing whitespace; the first character of the range stops it. */
  method TrimEnd(buf: array<char>, begin: nat, end: nat) returns (stop: nat)
    requires begin < end <= buf.Length && !IsSpace(buf[begin])
    ensures begin < stop <= end && !IsSpace(buf[stop - 1])
    ensures forall i :: stop <= i < end ==> IsSpace(buf[i])
  {
    stop := end;
    while IsSpace(buf[stop - 1])
      invariant begin < stop <= end
      invariant forall i :: stop <= i < end ==> IsSpace(buf[i])
      decreases stop
    {
      stop := stop - 1;
    }
  }

  /** `Stands`, in the buffer's own positions. */
  ghost predicate StandsIn(buf: array<char>, from: nat, to: nat, at: Place)
    requires from <= to <= buf.Length
    reads buf
  {
    && Within(at, from, to)
    && (forall i :: from <= i < at.keyBegin ==> IsSpace(buf[i]))
    && !IsSpace(buf[at.keyBegin]) && buf[at.keyBegin] != '#' && !IsSpace(buf[at.keyEnd - 1])
    && (forall i :: at.keyEnd <= i < at.equals ==> IsSpace(buf[i]))
    && (forall i :: from <= i < at.equals ==> buf[i] != '=') && buf[at.equals] == '='
    && (forall i :: at.equals < i < at.valBegin ==> IsSpace(buf[i]))
    && !IsSpace(buf[at.valBegin]) && !IsSpace(buf[at.valEnd - 1])
    && (forall i :: at.valEnd <= i < to ==> IsSpace(buf[i]))
  }

  ghost function Shift(at: Place, start: nat): Place
    requires start <= at.keyBegin && Within(at, at.keyBegin, at.valEnd)
  {
    Place(at.keyBegin - start, at.keyEnd - start, at.equals - start, at.valBegin - start, at.valEnd - start)
  }

  lemma {:induction false} ShiftedStands(buf: array<char>, from: nat, to: nat, at: Place)
    requires from <= to <= buf.Length && StandsIn(buf, from, to, at)
    ensures Stands(buf[from..to], Shift(at, from))
  {
    var line := buf[from..to];
    assert forall i :: 0 <= i < to - from ==> line[i] == buf[from + i];
  }

  lemma {:induction false} ReadInPlace(buf: array<char>, from: nat, to: nat, at: Place)
    requires from <= to <= buf.Length && StandsIn(buf, from, to, at)
    ensures PairOf(buf[from..to]) == Some(Text(buf[..to], at))
  {
    ShiftedStands(buf, from, to, at);
    ShiftedText(buf[..to], from, at);
    assert buf[..to][from..] == buf[from..to];
    PairIsRead(buf[from..to], Shift(at, from));
  }

  lemma {:induction false} ShiftedText(s: string, from: nat, at: Place)
    requires Within(at, from, |s|)
    ensures Text(s[from..], Shift(at, from)) == Text(s, at)
  {
  }

  /** Blank lines and comments. */
  lemma {:induction false} NothingIsRead(line: string, b: nat)
    requires b <= |line| && forall i :: 0 <= i < b ==> IsSpace(line[i])
    requires b == |line| || line[b] == '#'
    ensures PairOf(line) == None
  {
    forall at ensures !Stands(line, at) {
      assert Stands(line, at) && b < |line| ==> at.keyBegin == b;
    }
  }

  /** Lines without `=`, without a key or without a value. */
  lemma {:induction false} NoPairIsRead(line: string, b: nat, q: nat)
    requires b <= q <= |line| && (forall i :: 0 <= i < b ==> IsSpace(line[i]))
    requires b < |line| && !IsSpace(line[b])
    requires (forall i :: b <= i < q ==> line[i] != '=') && (q < |line| ==> line[q] == '=')
    requires q == |line| || q == b || forall i :: q < i < |line| ==> IsSpace(line[i])
    ensures PairOf(line) == None
  {
    forall at ensures !Stands(line, at) {
      assert Stands(line, at) ==> at.keyBegin == b;
      assert Stands(line, at) && q < |line| ==> at.equals == q;
    }
  }

  ghost function Placed(s: string, found: Option<Place>): Option<Pair>
    requires found.Some? ==> Within(found.value, 0, |s|)
  {
    if found.Some? then Some(Text(s, found.value)) else None
  }

  /** The key and the value in a line whose leading whitespace ends at `lineBegin`. */
  method FindPair(buf: array<char>, ghost from: nat, lineBegin: nat, lineEnd: nat, ghost n: nat)
    returns (found: Option<Place>)
    requires Terminated(buf, from, n) && from <= lineBegin <= lineEnd <= n
    requires forall i :: from <= i < lineBegin ==> IsSpace(buf[i])
    requires !IsSpace(buf[lineBegin]) && !IsSpace(buf[lineEnd])
    ensures found.Some? ==> Within(found.value, lineBegin, lineEnd)
    ensures PairOf(buf[from..lineEnd]) == Placed(buf[..lineEnd], found)
  {
    hide PairOf, Stands;
    ghost var line, b := buf[from..lineEnd], lineBegin - from;
    assert forall i :: 0 <= i < |line| ==> line[i] == buf[from + i];
    if lineBegin == lineEnd || buf[lineBegin] == '#' {
      NothingIsRead(line, b);
      return None;
    }
    var equals := lineBegin;
    while equals < lineEnd && buf[equals] != '='
      invariant lineBegin <= equals <= lineEnd
      invariant forall i :: lineBegin <= i < equals ==> buf[i] != '='
    {
      equals := equals + 1;
    }
    if equals == lineEnd || equals == lineBegin {
      NoPairIsRead(line, b, equals - from);
      return None;
    }
    var valBegin := SkipSpace(buf, equals + 1, n);
    assert valBegin <= lineEnd;
    if valBegin == lineEnd {
      NoPairIsRead(line, b, equals - from);
      return None;
    }
    var keyEnd := TrimEnd(buf, lineBegin, equals);
    var valEnd := TrimEnd(buf, valBegin, lineEnd);
    var at := Place(lineBegin, keyEnd, equals, valBegin, valEnd);
    ReadInPlace(buf, from, lineEnd, at);
    found := Some(at);
  }

  lemma {:induction false} PlacedInPrefix(s: string, to: nat, found: Option<Place>)
    requires to <= |s| && (found.Some? ==> Within(found.value, 0, to))
    ensures Placed(s[..to], found) == Placed(s, found)
  {
    if found.Some? {
      var at := found.value;
      assert s[..to][at.keyBegin..at.keyEnd] == s[at.keyBegin..at.keyEnd];
      assert s[..to][at.valBegin..at.valEnd] == s[at.valBegin..at.valEnd];
    }
  }

  lemma {:induction false} LineInPlace(
      buf: array<char>, from: nat, lineEnd: nat, next: nat, n: nat, found: Option<Place>)
    requires from <= lineEnd <= next <= n <= buf.Length && (lineEnd < n ==> lineEnd < next)
    requires forall i :: from <= i < lineEnd ==> !IsBreak(buf[i])
    requires forall i :: lineEnd <= i < next ==> IsBreak(buf[i])
    requires found.Some? ==> Within(found.value, from, lineEnd)
    requires PairOf(buf[from..lineEnd]) == Placed(buf[..lineEnd], found)
    ensures Pairs(buf[from..n]) == AsSeq(Placed(buf[..n], found)) + Pairs(buf[next..n])
  {
    hide PairOf, Pairs;
    PlacedInPrefix(buf[..n], lineEnd, found);
    assert buf[..n][..lineEnd] == buf[..lineEnd];
    var s := buf[from..n];
    assert s[..lineEnd - from] == buf[from..lineEnd] && s[next - from..] == buf[next..n];
    LineThenRest(s, lineEnd - from, next - from);
  }

  /** One line: where its pair stands, and where the next line begins. */
  method ReadLine(buf: array<char>, from: nat, ghost n: nat) returns (next: nat, found: Option<Place>)
    requires Terminated(buf, from, n) && from < n
    ensures from < next <= n
    ensures found.Some? ==> Within(found.value, from, next) && (found.value.valEnd == next ==> next == n)
    ensures Pairs(buf[from..n]) == AsSeq(Placed(buf[..n], found)) + Pairs(buf[next..n])
  {
    var lineBegin := SkipSpace(buf, from, n);
    var lineEnd := LineEnd(buf, lineBegin, n);
    next := SkipBreaks(buf, lineEnd, n);
    found := FindPair(buf, from, lineBegin, lineEnd, n);
    LineInPlace(buf, from, lineEnd, next, n, found);
  }

  /** Gives every pair of the config, in order, to the consumer until it asks to stop. */
  method ConsumeConfigString<S>(buf: array<char>, consumer: (S, Pair) -> (S, bool), state: S, ghost n: nat)
    returns (result: S)
    requires Terminated(buf, 0, n)
    ensures result == Consumed(Pairs(buf[..n]), consumer, state)
  {
    hide PairOf, Pairs;
    ghost var all := Pairs(buf[..n]);
    ghost var rest := all;
    assert buf[0..n] == buf[..n];
    result := state;
    var read, stop := 0, false;
    while buf[read] != NUL && !stop
      invariant read <= n && rest == Pairs(buf[read..n])
      invariant Consumed(all, consumer, state) == if stop then result else Consumed(rest, consumer, result)
      decreases n - read
    {
      var next, found := ReadLine(buf, read, n);
      rest := Pairs(buf[next..n]);
      assert AsSeq(None) + rest == rest;
      if found.Some? {
        var at := found.value;
        var pair := Pair(buf[at.keyBegin..at.keyEnd], buf[at.valBegin..at.valEnd]);
        assert pair == Text(buf[..n], at);
        ConsumeFirst(pair, rest, consumer, result);
        var answer := consumer(result, pair);
        result, stop := answer.0, answer.1;
      }
      read := next;
    }
    if !stop {
      assert buf[read..n] == "";
      NothingLeft();
    }
  }

  lemma {:induction false} ConsumeFirst<S>(p: Pair, rest: seq<Pair>, consumer: (S, Pair) -> (S, bool), state: S)
    ensures Consumed([p] + rest, consumer, state)
         == if consumer(state, p).1 then consumer(state, p).0 else Consumed(rest, consumer, consumer(state, p).0)
  {
    assert ([p] + rest)[1..] == rest;
  }

  // ---- simplifying in place ----

  /** `memmove` toward the front: the ranges may overlap. */
  method Move(buf: array<char>, to: nat, from: nat, size: nat)
    requires to <= from && from + size <= buf.Length
    modifies buf
    ensures buf[to..to + size] == old(buf[from..from + size])
    ensures buf[..to] == old(buf[..to]) && buf[to + size..] == old(buf[to + size..])
  {
    forall i | 0 <= i < size {
      buf[to + i] := buf[from + i];
    }
  }

  /** Prints one pair at the write cursor; the source ranges may overlap what is written. */
  method PrintPair(buf: array<char>, write: nat, at: Place) returns (end: nat)
    requires Within(at, write, buf.Length) && at.valEnd < buf.Length
    modifies buf
    ensures end == write + |Line(old(Text(buf[..], at)))| <= at.valEnd + 1
    ensures buf[..end] == old(buf[..write]) + Line(old(Text(buf[..], at)))
    ensures buf[end..] == old(buf[end..])
  {
    ghost var before, pair := buf[..], Text(buf[..], at);
    end := PutField(buf, write, at.keyBegin, at.keyEnd, '=');
    assert buf[at.valBegin..at.valEnd] == pair.val by {
      assert buf[end..][at.valBegin - end..at.valEnd - end] == before[end..][at.valBegin - end..at.valEnd - end];
    }
    ghost var middle := end;
    end := PutField(buf, end, at.valBegin, at.valEnd, '\n');
    assert buf[..end] == before[..write] + (pair.key + "=") + (pair.val + "\n");
    assert buf[end..] == before[middle..][end - middle..];
  }

  /** Moves a field to the write cursor and puts its delimiter behind it. */
  method PutField(buf: array<char>, write: nat, begin: nat, stop: nat, delimiter: char) returns (end: nat)
    requires write <= begin < stop < buf.Length
    modifies buf
    ensures end == write + (stop - begin) + 1
    ensures buf[..end] == old(buf[..write]) + (old(buf[begin..stop]) + [delimiter])
    ensures buf[end..] == old(buf[end..])
  {
    var size := stop - begin;
    Move(buf, write, begin, size);
    end := write + size;
    assert buf[end + 1..] == old(buf[end..])[1..];
    buf[end] := delimiter;
    end := end + 1;
    assert buf[..end] == buf[..write] + (buf[write..end - 1] + [delimiter]);
  }

  /** Prints a pair of the line at `read` behind the pairs already printed. */
  method KVPConsumerForSimplify(
      buf: array<char>, write: nat, at: Place, ghost read: nat, ghost next: nat, ghost n: nat, ghost done: seq<Pair>)
    returns (end: nat)
    requires Terminated(buf, read, n) && write <= read < next <= n && Within(at, read, next)
    requires buf[..write] == Render(done) && NUL !in buf[..write]
    modifies buf
    ensures end <= at.valEnd + 1
    ensures buf[..end] == Render(done + [old(Text(buf[..n], at))])
    ensures end <= next ==> NUL !in buf[..end] && Terminated(buf, next, n) && buf[next..n] == old(buf[next..n])
  {
    hide Render, Line, IsSpace;
    ghost var pair := Text(buf[..], at);
    TextOfPrefix(buf, read, n, at);
    RenderMore(done, pair);
    end := PrintPair(buf, write, at);
    if end <= next {
      assert forall i :: next <= i < buf.Length ==> buf[i] == buf[end..][i - end] == old(buf[i]);
    }
  }

  /**
   * Replaces the config by its canonical text and returns its length. `None` stands for the run the
   * source does not guard against: the write cursor passes the read cursor, which happens only when
   * the newline after the last pair lands on the terminator the parser still has to find.
   */
  method SimplifyConfigHeapString(buf: array<char>, ghost n: nat) returns (size: Option<nat>)
    requires Terminated(buf, 0, n)
    modifies buf
    ensures size.None? <==> Tight(old(buf[..n]))
    ensures size.Some? ==> Terminated(buf, 0, size.value) && size.value <= n
    ensures size.Some? ==> buf[..size.value] == Render(Pairs(old(buf[..n])))
  {
    hide PairOf, Pairs, Render, Tight, Text;
    ghost var s, done, rest: seq<Pair> := buf[..n], [], Pairs(buf[..n]);
    ghost var all := rest;
    FitsUnlessTight(s);
    RenderNothing();
    assert buf[0..n] == s;
    var read, write := 0, 0;
    while buf[read] != NUL
      invariant 0 <= write <= read <= n < buf.Length && Terminated(buf, read, n)
      invariant rest == Pairs(buf[read..n]) && all == done + rest
      invariant buf[..write] == Render(done) && NUL !in buf[..write]
      decreases n - read
    {
      var next, found := ReadLine(buf, read, n);
      rest := Pairs(buf[next..n]);
      if found.Some? {
        ghost var pair := Text(buf[..n], found.value);
        RenderLonger(done + [pair], rest);
        assert all == done + [pair] + rest;
        write := KVPConsumerForSimplify(buf, write, found.value, read, next, n, done);
        done := done + [pair];
        if write > next {
          return None;
        }
      }
      read := next;
    }
    NothingLeft();
    assert buf[read..n] == "";
    assert done == all;
    buf[write] := NUL;
    assert buf[..write] == Render(done);
    size := Some(write);
  }

  lemma {:induction false} RenderNothing()
    ensures Render([]) == ""
  {
  }

  lemma {:induction false} TextOfPrefix(buf: array<char>, from: nat, n: nat, at: Place)
    requires Terminated(buf, from, n) && Within(at, from, n)
    ensures Text(buf[..n], at) == Text(buf[..], at)
    ensures NUL !in Line(Text(buf[..], at))
  {
    var p := Text(buf[..], at);
    assert p.key == buf[at.keyBegin..at.keyEnd] && p.val == buf[at.valBegin..at.valEnd];
    assert p == Text(buf[..n], at);
  }

  lemma {:induction false} RenderMore(done: seq<Pair>, p: Pair)
    ensures Render(done + [p]) == Render(done) + Line(p)
  {
    RenderConcat(done, [p]);
    assert Render([p]) == Line(p) + Render([]);
  }

  lemma {:induction false} RenderLonger(done: seq<Pair>, rest: seq<Pair>)
    ensures |Render(done + rest)| >= |Render(done)|
  {
    RenderConcat(done, rest);
  }
}
