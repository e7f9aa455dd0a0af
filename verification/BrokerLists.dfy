/** The splitting of printed lists in BrokerInfo.C. */
module BrokerLists {

  /** find_first_of with one character, from a position on; -1 when there is none. */
  function Find(s: string, c: char, from: int): (p: int)
    requires from >= 0
    ensures p == -1 || (from <= p < |s| && s[p] == c)
    ensures forall i :: from <= i < (if p == -1 then |s| else p) ==> s[i] != c
    decreases |s| - from
  {
    if from >= |s| then -1 else if s[from] == c then from else Find(s, c, from + 1)
  }

  /** The same, with -1 replaced by `end`, as the code does after every search. */
  function FindOr(s: string, c: char, from: int, end: int): int
    requires from >= 0
  {
    var p := Find(s, c, from);
    if p == -1 then end else p
  }

  /** substr; a negative count converts to a huge one and means the rest. */
  function Substr(s: string, from: int, count: int): string
    requires 0 <= from <= |s|
  {
    if count < 0 || from + count > |s| then s[from..] else s[from..from + count]
  }

  // ------------------------------------------------------------------- records in a list

  /** Occurrences of a character among the first `k`. */
  function Count(s: string, c: char, k: nat): nat
    requires k <= |s|
  {
    if k == 0 then 0 else Count(s, c, k - 1) + if s[k - 1] == c then 1 else 0
  }

  /** Opened minus closed brackets in the first `k` characters. */
  function Depth(s: string, k: nat): int
    requires k <= |s|
  {
    Count(s, '[', k) - Count(s, ']', k)
  }

  /** A text whose first bracket is closed by its last character, with anything balanced inside. */
  ghost predicate IsRecord(r: string) {
    |r| >= 2 && Depth(r, |r|) == 0 && forall k :: 0 < k < |r| ==> Depth(r, k) > 0
  }

  ghost predicate NoBrackets(s: string) {
    '[' !in s && ']' !in s
  }

  /** gaps[n] recs[n] gaps[n+1] ... gaps[|recs|] */
  function Render(gaps: seq<string>, recs: seq<string>, n: nat): (s: string)
    requires n <= |recs| && |gaps| == |recs| + 1
    ensures gaps[|recs|] != "" ==> s != ""
    ensures n < |recs| && recs[n] != "" ==> s != ""
    decreases |recs| - n
  {
    if n == |recs| then gaps[n] else gaps[n] + recs[n] + Render(gaps, recs, n + 1)
  }

  /** The buffer is a printed list of these records: nothing else in it has brackets. */
  ghost predicate Prints(buffer: string, gaps: seq<string>, recs: seq<string>) {
    && |gaps| == |recs| + 1
    && (forall g <- gaps :: NoBrackets(g)) && (forall r <- recs :: IsRecord(r))
    && buffer == Render(gaps, recs, 0)
  }

  /** How many of the records are found: all but the last one if the text ends with it. */
  function Kept(gaps: seq<string>, recs: seq<string>): (n: nat)
    requires |gaps| == |recs| + 1
    ensures n <= |recs| <= n + 1
  {
    if recs != [] && gaps[|recs|] == "" then |recs| - 1 else |recs|
  }

  /** A record stands between the positions `st` and `e` of a text that is balanced before it. */
  ghost predicate RecordAt(s: string, st: int, e: int) {
    && 0 <= st < e < |s| && Depth(s, st) == 0 && Depth(s, e + 1) == 0
    && forall k :: st < k <= e ==> Depth(s, k) > 0
  }

  lemma {:induction false} CountAppend(a: string, b: string, c: char, k: nat)
    requires k <= |b|
    ensures Count(a + b, c, |a| + k) == Count(a, c, |a|) + Count(b, c, k)
  {
    if k == 0 {
      CountPrefix(a, a + b, c, |a|);
    } else {
      CountAppend(a, b, c, k - 1);
      assert (a + b)[|a| + k - 1] == b[k - 1];
    }
  }

  lemma {:induction false} CountPrefix(a: string, b: string, c: char, k: nat)
    requires k <= |a| && k <= |b| && a[..k] == b[..k]
    ensures Count(a, c, k) == Count(b, c, k)
  {
    if k > 0 {
      assert a[k - 1] == a[..k][k - 1] == b[..k][k - 1] == b[k - 1];
      assert a[..k - 1] == a[..k][..k - 1] == b[..k][..k - 1] == b[..k - 1];
      CountPrefix(a, b, c, k - 1);
    }
  }

  lemma {:induction false} CountMono(s: string, c: char, i: nat, j: nat)
    requires i <= j <= |s|
    ensures Count(s, c, i) <= Count(s, c, j)
    ensures Count(s, c, i) == Count(s, c, j) <==> forall k :: i <= k < j ==> s[k] != c
  {
    if i < j {
      CountMono(s, c, i, j - 1);
    }
  }

  lemma {:induction false} NoneCounted(s: string, c: char, k: nat)
    requires k <= |s| && c !in s
    ensures Count(s, c, k) == 0
  {
    if k > 0 {
      NoneCounted(s, c, k - 1);
    }
  }

  lemma CountThrough(front: string, gap: string, rec: string, rest: string, c: char, k: nat)
    requires k <= |rec| && c !in gap
    ensures Count(front + gap + rec + rest, c, |front| + |gap| + k) == Count(front, c, |front|) + Count(rec, c, k)
  {
    var a := front + gap;
    CountAppend(front, gap, c, |gap|);
    NoneCounted(gap, c, |gap|);
    CountAppend(a, rec, c, k);
    CountPrefix(a + rec, a + rec + rest, c, |a| + k);
  }

  /** A record behind a balanced part and a gap without brackets. */
  lemma RecordBehind(s: string, front: string, gap: string, rec: string, rest: string)
    requires s == front + gap + rec + rest
    requires Depth(front, |front|) == 0 && NoBrackets(gap) && IsRecord(rec)
    ensures
      var st := |front| + |gap|;
      var e := st + |rec| - 1;
      && RecordAt(s, st, e) && s[st..e + 1] == rec && s[e + 1..] == rest
      && forall k :: |front| <= k < st ==> s[k] != '[' && s[k] != ']'
  {
    var st := |front| + |gap|;
    forall k | st <= k <= st + |rec| ensures Depth(s, k) == Depth(rec, k - st) {
      CountThrough(front, gap, rec, rest, '[', k - st);
      CountThrough(front, gap, rec, rest, ']', k - st);
    }
    forall k | |front| <= k < st ensures s[k] != '[' && s[k] != ']' {
      assert s[k] == gap[k - |front|];
    }
  }

  // --------------------------------------------------------------- records by their grammar

  /** What stands between the brackets of a record: characters, and other records. */
  datatype Body = End | Character(c: char, rest: Body) | Inner(body: Body, rest: Body)
  {
    predicate IsPlain() {
      match this
      case End => true
      case Character(c, rest) => c != '[' && c != ']' && rest.IsPlain()
      case Inner(body, rest) => body.IsPlain() && rest.IsPlain()
    }

    function Show(): string {
      match this
      case End => ""
      case Character(c, rest) => [c] + rest.Show()
      case Inner(body, rest) => "[" + body.Show() + "]" + rest.Show()
    }

    function Record(): string {
      "[" + Show() + "]"
    }
  }

  lemma DepthAppend(a: string, b: string, k: nat)
    requires k <= |a| + |b|
    ensures Depth(a + b, k) == if k <= |a| then Depth(a, k) else Depth(a, |a|) + Depth(b, k - |a|)
  {
    if k <= |a| {
      CountPrefix(a, a + b, '[', k);
      CountPrefix(a, a + b, ']', k);
    } else {
      CountAppend(a, b, '[', k - |a|);
      CountAppend(a, b, ']', k - |a|);
    }
  }

  lemma DepthOfOne(c: char, k: nat)
    requires k <= 1
    ensures Depth([c], k) == if k == 0 then 0 else if c == '[' then 1 else if c == ']' then -1 else 0
  {
    assert Count([c], '[', 0) == 0 && Count([c], ']', 0) == 0;
  }

  /** Every bracket opened is closed, and none is closed before it is opened. */
  ghost predicate Balanced(s: string) {
    Depth(s, |s|) == 0 && forall k :: 0 <= k <= |s| ==> Depth(s, k) >= 0
  }

  lemma BalancedAppend(a: string, b: string)
    requires Balanced(a) && Balanced(b)
    ensures Balanced(a + b)
  {
    forall k | 0 <= k <= |a + b|
      ensures Depth(a + b, k) >= 0 && (k == |a + b| ==> Depth(a + b, k) == 0)
    {
      DepthAppend(a, b, k);
    }
  }

  lemma DepthInBrackets(s: string, k: nat)
    requires k <= |s| + 2 && Depth(s, |s|) == 0
    ensures Depth("[" + s + "]", k) == if k == 0 || k == |s| + 2 then 0 else 1 + Depth(s, k - 1)
  {
    var front := "[" + s;
    DepthOfOne('[', 0);
    DepthOfOne('[', 1);
    DepthAppend(front, "]", k);
    if k <= |front| {
      DepthAppend("[", s, k);
    } else {
      DepthAppend("[", s, |front|);
      DepthOfOne(']', 1);
    }
  }

  /** In brackets a balanced text is one record. */
  lemma BracketsMakeRecord(s: string)
    requires Balanced(s)
    ensures IsRecord("[" + s + "]") && Balanced("[" + s + "]")
  {
    var r := "[" + s + "]";
    forall k | 0 <= k <= |r| ensures Depth(r, k) >= (if 0 < k < |r| then 1 else 0) {
      DepthInBrackets(s, k);
    }
    DepthInBrackets(s, |r|);
  }

  lemma {:induction false} ShownIsBalanced(b: Body)
    requires b.IsPlain()
    ensures Balanced(b.Show())
  {
    match b
    case End =>
    case Character(c, rest) =>
      ShownIsBalanced(rest);
      DepthOfOne(c, 0);
      DepthOfOne(c, 1);
      BalancedAppend([c], rest.Show());
    case Inner(body, rest) =>
      ShownIsBalanced(body);
      ShownIsBalanced(rest);
      BracketsMakeRecord(body.Show());
      BalancedAppend("[" + body.Show() + "]", rest.Show());
  }

  function Records(bodies: seq<Body>): (recs: seq<string>)
    ensures |recs| == |bodies| && forall i :: 0 <= i < |recs| ==> recs[i] == bodies[i].Record()
  {
    seq(|bodies|, i requires 0 <= i < |bodies| => bodies[i].Record())
  }

  /** So every list of such records, with texts without brackets around them, is a printed list. */
  lemma RecordsArePrinted(gaps: seq<string>, bodies: seq<Body>)
    requires |gaps| == |bodies| + 1
    requires (forall g <- gaps :: '[' !in g && ']' !in g) && forall b <- bodies :: b.IsPlain()
    ensures Prints(Render(gaps, Records(bodies), 0), gaps, Records(bodies))
  {
    forall i | 0 <= i < |bodies| ensures IsRecord(Records(bodies)[i]) {
      ShownIsBalanced(bodies[i]);
      BracketsMakeRecord(bodies[i].Show());
    }
  }

  // -------------------------------------------------------------------------------- the code

  /** The part of an iteration after the opening bracket at `sp0` was looked for from `from`: finds
      the closing bracket that matches it, and the next opening one.  `e` is where the record
      ends, if there is one. */
  method MatchBracket(buffer: string, send: int, from: int, sp0: int, ghost e: int) returns (sp1: int, sp0x: int)
    requires send == |buffer| - 1 && 0 <= from && 0 <= sp0 <= send
    ensures sp1 <= send && 0 <= sp0x <= send && (sp0 < send ==> sp0 < sp0x)
    ensures FollowedBy(buffer, from, sp0, e) ==>
              sp1 == e && if e < send then e < sp0x && forall k :: e < k < sp0x ==> buffer[k] != '['
                          else sp0x == send && buffer[send] != '['
  {
    sp1 := FindOr(buffer, ']', from, send);
    sp0x := FindOr(buffer, '[', sp0 + 1, send);
    ghost var good := FollowedBy(buffer, from, sp0, e);
    if good {
      FirstPair(buffer, from, sp0, e, sp1, sp0x);
    }
    while sp0x < sp1
      invariant (sp0 < send ==> sp0 < sp0x) && 0 <= sp0x <= send && 0 <= sp1 <= send
      invariant good ==> Paired(buffer, sp0, e, sp1, sp0x)
      decreases send - sp0x
    {
      if good {
        NextPair(buffer, sp0, e, sp1, sp0x);
      }
      sp1 := FindOr(buffer, ']', sp1 + 1, send);
      sp0x := FindOr(buffer, '[', sp0x + 1, send);
    }
    if good {
      LastPair(buffer, sp0, e, sp1, sp0x);
    }
  }

  /** A record with no closing bracket between `from` and it. */
  ghost predicate FollowedBy(s: string, from: int, st: int, e: int) {
    && RecordAt(s, st, e) && 0 <= from <= st
    && forall k :: from <= k < st ==> s[k] != ']'
  }

  /** As many brackets open before `sp0x` as close up to and including `sp1`. */
  ghost predicate Paired(s: string, st: int, e: int, sp1: int, sp0x: int) {
    && RecordAt(s, st, e)
    && st < sp1 <= e && s[sp1] == ']' && st < sp0x <= |s| - 1
    && Count(s, '[', sp0x) == Count(s, ']', sp1) + 1
    && (s[sp0x] == '[' || sp0x == |s| - 1)
  }

  lemma ClosesAtEnd(s: string, st: int, e: int)
    requires RecordAt(s, st, e)
    ensures s[e] == ']' && s[st] == '['
  {
    assert Depth(s, e) > 0 && Depth(s, st + 1) > 0;
  }

  lemma FirstPair(s: string, from: int, st: int, e: int, sp1: int, sp0x: int)
    requires FollowedBy(s, from, st, e)
    requires sp1 == FindOr(s, ']', from, |s| - 1) && sp0x == FindOr(s, '[', st + 1, |s| - 1)
    ensures Paired(s, st, e, sp1, sp0x)
  {
    ClosesAtEnd(s, st, e);
    CountMono(s, ']', st, sp1);
    CountMono(s, '[', st + 1, sp0x);
  }

  lemma NextPair(s: string, st: int, e: int, sp1: int, sp0x: int)
    requires Paired(s, st, e, sp1, sp0x) && sp0x < sp1
    ensures Paired(s, st, e, FindOr(s, ']', sp1 + 1, |s| - 1), FindOr(s, '[', sp0x + 1, |s| - 1))
  {
    ClosesAtEnd(s, st, e);
    assert s[sp0x] == '[';
    CountMono(s, '[', sp0x + 1, sp1);
    assert Depth(s, sp1 + 1) > 0;
    var t1, t0x := FindOr(s, ']', sp1 + 1, |s| - 1), FindOr(s, '[', sp0x + 1, |s| - 1);
    CountMono(s, ']', sp1 + 1, t1);
    CountMono(s, '[', sp0x + 1, t0x);
  }

  lemma LastPair(s: string, st: int, e: int, sp1: int, sp0x: int)
    requires Paired(s, st, e, sp1, sp0x) && sp0x >= sp1
    ensures sp1 == e && s[e] == ']'
    ensures if e < |s| - 1 then e < sp0x && forall k :: e < k < sp0x ==> s[k] != '[' else sp0x == |s| - 1
  {
    ClosesAtEnd(s, st, e);
    if sp0x > sp1 {
      CountMono(s, '[', sp1 + 1, sp0x);
      assert Depth(s, sp1 + 1) <= 0;
    }
    assert sp1 == e;
  }

  /** The first `n` records have been split off; what is left begins at `pos`. */
  ghost predicate Split(buffer: string, gaps: seq<string>, recs: seq<string>, n: nat, pos: nat, out: seq<string>) {
    && Prints(buffer, gaps, recs) && n <= |recs| && pos <= |buffer|
    && out == recs[..n] && Depth(buffer, pos) == 0 && buffer[pos..] == Render(gaps, recs, n)
  }

  ghost predicate NoOpening(s: string, from: nat, to: int) {
    from <= to < |s| && forall k :: from <= k < to ==> s[k] != '['
  }

  lemma NextRecordAt(buffer: string, gaps: seq<string>, recs: seq<string>, n: nat, pos: nat, out: seq<string>)
    requires Split(buffer, gaps, recs, n, pos, out) && n < |recs|
    ensures
      var st := pos + |gaps[n]|;
      var e := st + |recs[n]| - 1;
      && RecordAt(buffer, st, e) && (e + 1 < |buffer| <==> n < Kept(gaps, recs))
      && Split(buffer, gaps, recs, n + 1, e + 1, out + [buffer[st..e + 1]])
      && forall k :: pos <= k < st ==> buffer[k] != '[' && buffer[k] != ']'
  {
    var front, rest := buffer[..pos], Render(gaps, recs, n + 1);
    assert buffer == front + buffer[pos..] == front + gaps[n] + recs[n] + rest;
    CountPrefix(front, buffer, '[', pos);
    CountPrefix(front, buffer, ']', pos);
    RecordBehind(buffer, front, gaps[n], recs[n], rest);
    assert n + 1 < |recs| ==> IsRecord(recs[n + 1]);
    assert recs[..n + 1] == recs[..n] + [recs[n]];
  }

  /** Where the search for the next record ends. */
  lemma NextRecord(buffer: string, gaps: seq<string>, recs: seq<string>, n: nat, pos: nat, out: seq<string>, from: int)
    requires Split(buffer, gaps, recs, n, pos, out) && n < |recs| && NoOpening(buffer, pos, from)
    ensures
      var sp0 := FindOr(buffer, '[', from, |buffer| - 1);
      var e := sp0 + |recs[n]| - 1;
      && pos <= sp0 && FollowedBy(buffer, from, sp0, e) && (e + 1 < |buffer| <==> n < Kept(gaps, recs))
      && Split(buffer, gaps, recs, n + 1, e + 1, out + [buffer[sp0..e + 1]])
  {
    NextRecordAt(buffer, gaps, recs, n, pos, out);
    var st := pos + |gaps[n]|;
    ClosesAtEnd(buffer, st, st + |recs[n]| - 1);
    assert FindOr(buffer, '[', from, |buffer| - 1) == st;
  }

  lemma NoMoreRecords(buffer: string, gaps: seq<string>, recs: seq<string>, pos: nat, out: seq<string>, from: int)
    requires Split(buffer, gaps, recs, |recs|, pos, out) && NoOpening(buffer, pos, from)
    ensures FindOr(buffer, '[', from, |buffer| - 1) == |buffer| - 1
  {
    forall k | from <= k < |buffer| ensures buffer[k] != '[' {
      assert NoBrackets(gaps[|recs|]) && buffer[pos..] == gaps[|recs|];
      assert buffer[k] == buffer[pos..][k - pos];
    }
  }

  /** Where the search for the next record may begin: nothing opens between the last one found and
      there, or all that will be found has been and the text ends there. */
  ghost predicate MayBegin(buffer: string, gaps: seq<string>, recs: seq<string>, n: nat, pos: nat, from: int)
    requires |gaps| == |recs| + 1
  {
    NoOpening(buffer, pos, from) || (n == Kept(gaps, recs) && from == |buffer| - 1 >= 0 && buffer[from] != '[')
  }

  /** One turn of the outer loop. */
  method SplitOne(buffer: string, send: int, from: int, outList: seq<string>,
                  ghost gaps: seq<string>, ghost recs: seq<string>, ghost n: nat, ghost pos: nat)
    returns (sp0: int, sp0x: int, out: seq<string>, ghost rest: nat)
    requires send == |buffer| - 1 && 0 <= from <= send
    ensures from <= sp0 <= send && 0 <= sp0x <= send && (sp0 < send ==> sp0 < sp0x)
    ensures Split(buffer, gaps, recs, n, pos, outList) && MayBegin(buffer, gaps, recs, n, pos, from) ==>
              if n < Kept(gaps, recs) then
                sp0 < send && Split(buffer, gaps, recs, n + 1, rest, out) && NoOpening(buffer, rest, sp0x)
              else out == outList && (n == Kept(gaps, recs) && sp0 < send ==> sp0x == send && buffer[send] != '[')
  {
    out, rest := outList, 0;
    sp0 := FindOr(buffer, '[', from, send);
    ghost var good := Split(buffer, gaps, recs, n, pos, outList) && NoOpening(buffer, pos, from);
    ghost var e := -1;
    if good && n < |recs| {
      NextRecord(buffer, gaps, recs, n, pos, outList, from);
      e := sp0 + |recs[n]| - 1;
      rest := e + 1;
    } else if good {
      NoMoreRecords(buffer, gaps, recs, pos, outList, from);
    }
    var sp1;
    sp1, sp0x := MatchBracket(buffer, send, from, sp0, e);
    if sp0 < send && sp1 < send {
      out := out + [Substr(buffer, sp0, sp1 - sp0 + 1)];
    }
  }

  /** Splits a printed list of records; terminates on every text.  The last record is lost if the
      text ends with it, and only then. */
  method PrettyCAdList(buffer: string, ghost gaps: seq<string>, ghost recs: seq<string>) returns (outList: seq<string>)
    ensures Prints(buffer, gaps, recs) ==> outList == recs[..Kept(gaps, recs)]
    ensures Prints(buffer, gaps, recs) ==> (outList == recs <==> recs == [] || gaps[|recs|] != "")
  {
    outList := [];
    var sp0, sp0x := 0, 0;
    var send := |buffer| - 1;
    ghost var n: nat, pos: nat := 0, 0;
    ghost var good := Prints(buffer, gaps, recs);
    assert buffer[0..] == buffer;
    if good && recs != [] {
      NextRecordAt(buffer, gaps, recs, 0, 0, []);
    }
    while sp0 < send
      invariant 0 <= sp0 && 0 <= sp0x && (sp0 < send ==> sp0x <= send)
      invariant good ==> n <= Kept(gaps, recs) && Split(buffer, gaps, recs, n, pos, outList)
      invariant good && sp0 < send ==> MayBegin(buffer, gaps, recs, n, pos, sp0x)
      invariant good && sp0 >= send ==> n == Kept(gaps, recs)
      decreases if sp0 < send then 1 + send - sp0x else 0, send - sp0
    {
      ghost var rest: nat;
      sp0, sp0x, outList, rest := SplitOne(buffer, send, sp0x, outList, gaps, recs, n, pos);
      if good && n < Kept(gaps, recs) {
        n, pos := n + 1, rest;
      }
    }
    assert recs[..|recs|] == recs;
  }

  /** On every printed list of records, nested to any depth, these come back in order, but for the
      last one if nothing is printed behind it. */
  method SplitRecords(gaps: seq<string>, bodies: seq<Body>) returns (outList: seq<string>)
    requires |gaps| == |bodies| + 1
    requires (forall g <- gaps :: '[' !in g && ']' !in g) && forall b <- bodies :: b.IsPlain()
    ensures |outList| == if bodies != [] && gaps[|bodies|] == "" then |bodies| - 1 else |bodies|
    ensures forall i :: 0 <= i < |outList| ==> outList[i] == "[" + bodies[i].Show() + "]"
  {
    RecordsArePrinted(gaps, bodies);
    outList := PrettyCAdList(Render(gaps, Records(bodies), 0), gaps, Records(bodies));
  }

  // -------------------------------------------------------------------------- lists of strings

  /** The text between the first two quotes; all that follows the first when it is the only one. */
  function StringIn(piece: string): string {
    var begin := Find(piece, '"', 0);
    if begin == -1 then "" else Substr(piece, begin + 1, Find(piece, '"', begin + 1) - begin - 1)
  }

  predicate Plain(s: string) {
    '"' !in s && ',' !in s && '{' !in s && '}' !in s
  }

  /** One string in quotes, with whatever surrounds the quotes. */
  datatype Item = Item(lead: string, content: string, trail: string) {
    predicate IsPlain() {
      Plain(lead) && Plain(content) && Plain(trail)
    }

    function Show(): string {
      lead + "\"" + content + "\"" + trail
    }
  }

  /** The items from `n` on, with commas between them, and then `tail`. */
  function Join(items: seq<Item>, n: nat, tail: string): string
    requires n < |items|
    decreases |items| - n
  {
    items[n].Show() + if n + 1 == |items| then tail else "," + Join(items, n + 1, tail)
  }

  function Contents(items: seq<Item>): (s: seq<string>)
    ensures |s| == |items| && forall i :: 0 <= i < |s| ==> s[i] == items[i].content
  {
    seq(|items|, i requires 0 <= i < |items| => items[i].content)
  }

  ghost predicate AllPlain(items: seq<Item>) {
    forall item <- items :: item.IsPlain()
  }

  /** A printed list with at least one string: `front` stands before the opening brace, and `tail`
      begins with the closing one. */
  ghost predicate PrintsStrings(buffer: string, front: string, items: seq<Item>, tail: string) {
    && items != [] && AllPlain(items)
    && '{' !in front && '}' !in front && tail != "" && tail[0] == '}'
    && buffer == front + "{" + Join(items, 0, tail)
  }

  lemma ShowIsPlain(item: Item)
    requires item.IsPlain()
    ensures var s := item.Show(); ',' !in s && '{' !in s && '}' !in s
  {
  }

  lemma FindBehind(front: string, mid: string, c: char, rest: string)
    requires c !in mid
    ensures Find(front + mid + [c] + rest, c, |front|) == |front| + |mid|
  {
    var s := front + mid + [c] + rest;
    assert s[|front| + |mid|] == c;
    assert forall k :: |front| <= k < |front| + |mid| ==> s[k] == mid[k - |front|];
  }

  /** `part` stands at position `p` of `s`. */
  predicate At(s: string, p: nat, part: string) {
    p + |part| <= |s| && s[p..p + |part|] == part
  }

  lemma StringOfItem(item: Item, piece: string)
    requires item.IsPlain() && At(piece, 0, item.Show())
    ensures StringIn(piece) == item.content
  {
    var rest, a := piece[|item.Show()|..], item.lead + ['"'];
    assert piece == item.Show() + rest;
    assert piece == "" + item.lead + ['"'] + (item.content + ['"'] + item.trail + rest);
    FindBehind("", item.lead, '"', item.content + ['"'] + item.trail + rest);
    assert piece == a + item.content + ['"'] + (item.trail + rest);
    FindBehind(a, item.content, '"', item.trail + rest);
    assert Substr(piece, |a|, |item.content|) == item.content;
  }

  lemma JoinParts(items: seq<Item>, n: nat, tail: string, buffer: string, p: nat)
    requires n < |items| && p <= |buffer| && buffer[p..] == Join(items, n, tail)
    ensures At(buffer, p, items[n].Show())
    ensures
      var q := p + |items[n].Show()|;
      n + 1 < |items| ==> q < |buffer| && buffer[q] == ',' && buffer[q + 1..] == Join(items, n + 1, tail)
  {
    var shown, s, q := items[n].Show(), buffer[p..], p + |items[n].Show()|;
    assert s[..|shown|] == shown;
    assert buffer[p..q] == s[..|shown|];
    if n + 1 < |items| {
      assert s[|shown|] == ',' && s[|shown| + 1..] == Join(items, n + 1, tail);
      assert buffer[q] == s[|shown|] && buffer[q + 1..] == s[|shown| + 1..];
    }
  }

  function Size(items: seq<Item>, n: nat): nat
    requires n < |items|
    decreases |items| - n
  {
    |items[n].Show()| + if n + 1 == |items| then 0 else 1 + Size(items, n + 1)
  }

  /** No closing brace among the items: the first one ends the list. */
  lemma {:induction false} EndOfItems(items: seq<Item>, n: nat, tail: string)
    requires n < |items| && AllPlain(items) && tail != "" && tail[0] == '}'
    ensures Find(Join(items, n, tail), '}', 0) == Size(items, n)
    decreases |items| - n
  {
    var shown, s, size := items[n].Show(), Join(items, n, tail), Size(items, n);
    ShowIsPlain(items[n]);
    if n + 1 < |items| {
      EndOfItems(items, n + 1, tail);
      assert forall k :: |shown| < k < |s| ==> s[k] == Join(items, n + 1, tail)[k - |shown| - 1];
    }
    FindIs(s, '}', size);
  }

  lemma FindIs(s: string, c: char, p: nat)
    requires p < |s| && s[p] == c && forall k :: 0 <= k < p ==> s[k] != c
    ensures Find(s, c, 0) == p
  {
  }

  /** The items from `n` on stand at `p`, and end at `se`. */
  ghost predicate Standing(buffer: string, items: seq<Item>, tail: string, n: nat, p: int, se: int) {
    n < |items| && 0 <= p <= |buffer| && buffer[p..] == Join(items, n, tail) && se == p + Size(items, n)
  }

  lemma NextStanding(buffer: string, items: seq<Item>, tail: string, n: nat, p: nat, se: int)
    requires Standing(buffer, items, tail, n, p, se)
    ensures
      var q := p + |items[n].Show()|;
      && At(buffer, p, items[n].Show()) && q <= se
      && if n + 1 == |items| then se == q
         else q < |buffer| && buffer[q] == ',' && Standing(buffer, items, tail, n + 1, q + 1, se)
  {
    JoinParts(items, n, tail, buffer, p);
  }

  /** `n` strings have been split off; `sp0` stands before the next one. */
  ghost predicate Listed(buffer: string, items: seq<Item>, tail: string, n: nat, sp0: int, se: int) {
    && AllPlain(items) && n <= |items| && -1 <= sp0
    && if n == |items| then sp0 >= se else Standing(buffer, items, tail, n, sp0 + 1, se)
  }

  /** Up to the next comma, or to the end of the list, the item is read. */
  lemma PieceAt(buffer: string, p: nat, item: Item, se: int)
    requires item.IsPlain() && At(buffer, p, item.Show()) && se >= p + |item.Show()|
    ensures
      var sp1, q := FindOr(buffer, ',', p, se), p + |item.Show()|;
      && sp1 >= q && (q < |buffer| && buffer[q] == ',' ==> sp1 == q)
      && StringIn(Substr(buffer, p, sp1 - p)) == item.content
  {
    var shown, sp1 := item.Show(), FindOr(buffer, ',', p, se);
    ShowIsPlain(item);
    assert forall k :: p <= k < p + |shown| ==> buffer[k] == buffer[p..p + |shown|][k - p];
    var piece := Substr(buffer, p, sp1 - p);
    assert piece[..|shown|] == shown;
    StringOfItem(item, piece);
  }

  lemma NextString(buffer: string, items: seq<Item>, tail: string, n: nat, sp0: int, se: int)
    requires Listed(buffer, items, tail, n, sp0, se) && n < |items|
    ensures
      var sp1 := FindOr(buffer, ',', sp0 + 1, se);
      && sp0 < sp1 && Listed(buffer, items, tail, n + 1, sp1, se)
      && StringIn(Substr(buffer, sp0 + 1, sp1 - sp0 - 1)) == items[n].content
  {
    NextStanding(buffer, items, tail, n, sp0 + 1, se);
    PieceAt(buffer, sp0 + 1, items[n], se);
  }

  lemma NextContents(items: seq<Item>, n: nat, out: seq<string>, next: string)
    requires n < |items| && out == Contents(items)[..n] && next == items[n].content
    ensures out + [next] == Contents(items)[..n + 1]
  {
  }

  lemma FirstString(buffer: string, front: string, items: seq<Item>, tail: string)
    requires PrintsStrings(buffer, front, items, tail)
    ensures Find(buffer, '{', 0) == |front|
    ensures Listed(buffer, items, tail, 0, |front|, Find(buffer, '}', 0))
    ensures |front| < Find(buffer, '}', 0)
  {
    var s := Join(items, 0, tail);
    EndOfItems(items, 0, tail);
    assert buffer[|front| + 1..] == s;
    FindIs(buffer, '{', |front|);
    assert forall k :: |front| < k < |buffer| ==> buffer[k] == s[k - |front| - 1];
    FindIs(buffer, '}', |front| + 1 + Size(items, 0));
  }

  lemma NothingQuoted(buffer: string, from: nat, count: int)
    requires '"' !in buffer && from <= |buffer|
    ensures StringIn(Substr(buffer, from, count)) == ""
  {
    var piece := Substr(buffer, from, count);
    assert forall k :: 0 <= k < |piece| ==> piece[k] == buffer[from + k];
  }

  /** Splits a printed list of strings; the empty list is read as one empty string. */
  method PrettyStrList(buffer: string, ghost front: string, ghost items: seq<Item>, ghost tail: string)
    returns (outList: seq<string>)
    ensures PrintsStrings(buffer, front, items, tail) ==> outList == Contents(items)
    ensures -1 < Find(buffer, '{', 0) < Find(buffer, '}', 0) && '"' !in buffer && ',' !in buffer ==> outList == [""]
  {
    outList := [];
    var sb, se := Find(buffer, '{', 0), Find(buffer, '}', 0);
    var sp0 := sb;
    ghost var good, n: nat := PrintsStrings(buffer, front, items, tail), 0;
    ghost var empty := '"' !in buffer && ',' !in buffer && -1 < sb < se;
    if good {
      FirstString(buffer, front, items, tail);
    }
    while sp0 < se
      invariant sp0 >= -1
      invariant good ==> Listed(buffer, items, tail, n, sp0, se) && outList == Contents(items)[..n]
      invariant empty ==> -1 < sb < se && if sp0 < se then outList == [] else outList == [""]
      decreases se - sp0
    {
      var next;
      next, sp0 := NextPiece(buffer, sp0, se, items, tail, n, good, empty);
      if good {
        NextContents(items, n, outList, next);
        n := n + 1;
      }
      outList := outList + [next];
    }
    assert good ==> Contents(items)[..|items|] == Contents(items);
  }

  /** The string up to the next comma, and where that stands. */
  method NextPiece(buffer: string, sp0: int, se: int, ghost items: seq<Item>, ghost tail: string, ghost n: nat,
                   ghost good: bool, ghost empty: bool)
    returns (next: string, sp1: int)
    requires -1 <= sp0 < se < |buffer|
    requires good ==> Listed(buffer, items, tail, n, sp0, se) && n < |items|
    requires empty ==> '"' !in buffer && ',' !in buffer
    ensures sp0 < sp1
    ensures good ==> Listed(buffer, items, tail, n + 1, sp1, se) && next == items[n].content
    ensures empty ==> sp1 == se && next == ""
  {
    sp1 := FindOr(buffer, ',', sp0 + 1, se);
    next := StringIn(Substr(buffer, sp0 + 1, sp1 - sp0 - 1));
    if good {
      NextString(buffer, items, tail, n, sp0, se);
    }
    if empty {
      NothingQuoted(buffer, sp0 + 1, sp1 - sp0 - 1);
    }
  }
}
