/**
 * The Unity-log to JUnit converter (Test/Scripts/unity_to_junit.py):
 * the marker-pair parser over the captured log, the tag-stream machine
 * that pairs each test with its first result, and the tallies behind the
 * text summary and the JUnit report.
 *
 * Python terms: a log is a `string`; a raised exception is `Err(message)`;
 * `re.finditer` on an escaped literal is FindAll. The curTest of
 * collect_tests starts as the empty string and later holds a (group, name)
 * pair: here it is None, then Some(id). Both outputs index test[0][0], so
 * an entry whose test is still the empty string raises IndexError there.
 */
module UnityToJunit {
  import opened Wrappers

  datatype TagName = UnityTest | UnityIgnoredTest | UnityResult

  /** The tag names in the order extract_tags looks for them. */
  const TagNames: seq<TagName> := [UnityTest, UnityIgnoredTest, UnityResult]

  function NameText(n: TagName): string {
    match n
    case UnityTest => "UnityTest"
    case UnityIgnoredTest => "UnityIgnoredTest"
    case UnityResult => "UnityResult"
  }

  function StartMarker(n: TagName): (m: string)
    ensures |m| > 0
  {
    "<***" + NameText(n) + "***>"
  }

  function EndMarker(n: TagName): (m: string)
    ensures |m| > 0
  {
    "</***" + NameText(n) + "***>"
  }

  predicate Occurs(s: string, pat: string, j: nat) {
    j + |pat| <= |s| && s[j..j + |pat|] == pat
  }

  /** No occurrence of pat starts in [lo, hi). */
  predicate NoOccurrence(s: string, pat: string, lo: nat, hi: nat) {
    forall j :: lo <= j < hi ==> !Occurs(s, pat, j)
  }

  /**
   * re.finditer of a literal pattern from position i: the leftmost
   * occurrence, then the leftmost one after its end, and so on.
   */
  function FindAll(s: string, pat: string, i: nat): (r: seq<nat>)
    requires |pat| > 0
    decreases |s| - i
  {
    if i + |pat| > |s| then []
    else if Occurs(s, pat, i) then [i] + FindAll(s, pat, i + |pat|)
    else FindAll(s, pat, i + 1)
  }

  /** The k-th match found is an occurrence. */
  lemma {:induction false} FindAllOccurs(s: string, pat: string, i: nat, k: nat)
    requires |pat| > 0 && k < |FindAll(s, pat, i)|
    ensures Occurs(s, pat, FindAll(s, pat, i)[k])
    decreases |s| - i
  {
    var r := FindAll(s, pat, i);
    if i + |pat| > |s| {
      assert false;
    } else if Occurs(s, pat, i) {
      var rest := FindAll(s, pat, i + |pat|);
      assert r == [i] + rest;
      if k > 0 {
        FindAllOccurs(s, pat, i + |pat|, k - 1);
        assert r[k] == rest[k - 1];
      }
    } else {
      var rest := FindAll(s, pat, i + 1);
      assert r == rest;
      FindAllOccurs(s, pat, i + 1, k);
    }
  }

  /** No match starts before where the search starts. */
  lemma {:induction false} FindAllAfter(s: string, pat: string, i: nat, k: nat)
    requires |pat| > 0 && k < |FindAll(s, pat, i)|
    ensures i <= FindAll(s, pat, i)[k]
    decreases |s| - i
  {
    var r := FindAll(s, pat, i);
    if i + |pat| > |s| {
      assert false;
    } else if Occurs(s, pat, i) {
      var rest := FindAll(s, pat, i + |pat|);
      assert r == [i] + rest;
      if k > 0 {
        FindAllAfter(s, pat, i + |pat|, k - 1);
        assert r[k] == rest[k - 1];
      }
    } else {
      var rest := FindAll(s, pat, i + 1);
      assert r == rest;
      FindAllAfter(s, pat, i + 1, k);
    }
  }

  /** Each match starts after the previous one ends. */
  lemma {:induction false} FindAllSpaced(s: string, pat: string, i: nat, k: nat)
    requires |pat| > 0 && k + 1 < |FindAll(s, pat, i)|
    ensures FindAll(s, pat, i)[k] + |pat| <= FindAll(s, pat, i)[k + 1]
    decreases |s| - i
  {
    var r := FindAll(s, pat, i);
    if i + |pat| > |s| {
      assert false;
    } else if Occurs(s, pat, i) {
      var rest := FindAll(s, pat, i + |pat|);
      assert r == [i] + rest;
      assert r[k + 1] == rest[k];
      if k == 0 {
        FindAllAfter(s, pat, i + |pat|, 0);
      } else {
        FindAllSpaced(s, pat, i + |pat|, k - 1);
        assert r[k] == rest[k - 1];
      }
    } else {
      var rest := FindAll(s, pat, i + 1);
      assert r == rest;
      FindAllSpaced(s, pat, i + 1, k);
    }
  }

  /** With no match found, the pattern does not occur. */
  lemma {:induction false} FindAllNone(s: string, pat: string, i: nat)
    requires |pat| > 0 && FindAll(s, pat, i) == []
    ensures NoOccurrence(s, pat, i, |s|)
    decreases |s| - i
  {
    if i + |pat| <= |s| {
      assert !Occurs(s, pat, i);
      FindAllNone(s, pat, i + 1);
      forall j | i <= j < |s| ensures !Occurs(s, pat, j) {
        if j > i {
          assert i + 1 <= j;
        }
      }
    }
  }

  /** No occurrence starts before the first match. */
  lemma {:induction false} FindAllFirst(s: string, pat: string, i: nat)
    requires |pat| > 0 && FindAll(s, pat, i) != []
    ensures NoOccurrence(s, pat, i, FindAll(s, pat, i)[0])
    decreases |s| - i
  {
    if i + |pat| > |s| {
      assert false;
    } else if !Occurs(s, pat, i) {
      assert FindAll(s, pat, i) == FindAll(s, pat, i + 1);
      var first := FindAll(s, pat, i + 1)[0];
      FindAllFirst(s, pat, i + 1);
      forall j | i <= j < first ensures !Occurs(s, pat, j) {
        if j > i {
          assert i + 1 <= j;
        }
      }
    }
  }

  /** No occurrence starts after the end of the last match. */
  lemma {:induction false} FindAllLast(s: string, pat: string, i: nat)
    requires |pat| > 0 && FindAll(s, pat, i) != []
    ensures NoOccurrence(s, pat, FindAll(s, pat, i)[|FindAll(s, pat, i)| - 1] + |pat|, |s|)
    decreases |s| - i
  {
    var r := FindAll(s, pat, i);
    if i + |pat| > |s| {
      assert false;
    } else if Occurs(s, pat, i) {
      var rest := FindAll(s, pat, i + |pat|);
      assert r == [i] + rest;
      if rest == [] {
        FindAllNone(s, pat, i + |pat|);
        assert r[|r| - 1] == i;
      } else {
        FindAllLast(s, pat, i + |pat|);
        assert r[|r| - 1] == rest[|rest| - 1];
      }
    } else {
      var rest := FindAll(s, pat, i + 1);
      assert r == rest;
      FindAllLast(s, pat, i + 1);
      assert r[|r| - 1] == rest[|rest| - 1];
    }
  }

  /**
   * FindAll misses nothing: no occurrence starts before the first match,
   * between the end of one match and the next, or after the last.
   */
  lemma FindAllComplete(s: string, pat: string, i: nat)
    requires |pat| > 0
    ensures |FindAll(s, pat, i)| == 0 ==> NoOccurrence(s, pat, i, |s|)
    ensures |FindAll(s, pat, i)| > 0 ==> NoOccurrence(s, pat, i, FindAll(s, pat, i)[0])
    ensures |FindAll(s, pat, i)| > 0 ==>
              NoOccurrence(s, pat, FindAll(s, pat, i)[|FindAll(s, pat, i)| - 1] + |pat|, |s|)
  {
    if FindAll(s, pat, i) == [] {
      FindAllNone(s, pat, i);
    } else {
      FindAllFirst(s, pat, i);
      FindAllLast(s, pat, i);
    }
  }

  /** Nor does one start between the end of the k-th match and the next. */
  lemma {:induction false} FindAllGap(s: string, pat: string, i: nat, k: nat)
    requires |pat| > 0 && k + 1 < |FindAll(s, pat, i)|
    ensures NoOccurrence(s, pat, FindAll(s, pat, i)[k] + |pat|, FindAll(s, pat, i)[k + 1])
    decreases |s| - i
  {
    var r := FindAll(s, pat, i);
    if i + |pat| > |s| {
      assert false;
    } else if Occurs(s, pat, i) {
      var rest := FindAll(s, pat, i + |pat|);
      assert r == [i] + rest;
      var lo, hi := i + |pat|, rest[0];
      if k == 0 {
        FindAllFirst(s, pat, i + |pat|);
      } else {
        FindAllGap(s, pat, i + |pat|, k - 1);
        lo, hi := rest[k - 1] + |pat|, rest[k];
      }
      assert r[k] + |pat| == lo && r[k + 1] == hi;
      assert NoOccurrence(s, pat, lo, hi);
    } else {
      var rest := FindAll(s, pat, i + 1);
      assert r == rest;
      FindAllGap(s, pat, i + 1, k);
    }
  }

  /** Where each start marker ends and where each end marker begins. */
  function Starts(log: string, n: TagName): seq<nat> {
    FindAll(log, StartMarker(n), 0)
  }

  function Ends(log: string, n: TagName): seq<nat> {
    FindAll(log, EndMarker(n), 0)
  }

  predicate Balanced(log: string, n: TagName) {
    |Starts(log, n)| == |Ends(log, n)|
  }

  /** A tag found in the log: where its content starts, its name, its content. */
  datatype Located = Located(offset: nat, name: TagName, content: string)

  /** A tag as extract_tags returns it, the offset thrown away. */
  datatype Tag = Tag(name: TagName, content: string)

  /** The Python slice s[a:b] for non-negative a and b: both clamped to the length, empty when a > b. */
  function Slice(s: string, a: nat, b: nat): (r: string)
    ensures a <= b <= |s| ==> r == s[a..b]
    ensures b < a ==> r == []
    ensures |s| <= a ==> r == []
  {
    var lo, hi := if a < |s| then a else |s|, if b < |s| then b else |s|;
    if lo <= hi then s[lo..hi] else []
  }

  /** The k-th tag of one name: from the end of the k-th start marker to the start of the k-th end marker. */
  function PairAt(log: string, n: TagName, k: nat): Located
    requires Balanced(log, n) && k < |Starts(log, n)|
  {
    var p := Starts(log, n)[k] + |StartMarker(n)|;
    Located(p, n, Slice(log, p, Ends(log, n)[k]))
  }

  function Pairs(log: string, n: TagName): (r: seq<Located>)
    requires Balanced(log, n)
    ensures |r| == |Starts(log, n)|
    ensures forall k :: 0 <= k < |r| ==> r[k] == PairAt(log, n, k)
  {
    seq(|Starts(log, n)|, k requires 0 <= k < |Starts(log, n)| => PairAt(log, n, k))
  }

  /** The tags of the names in turn, unsorted, as the loop of extract_tags appends them. */
  function AllPairs(log: string, names: seq<TagName>): seq<Located>
    requires forall k :: 0 <= k < |names| ==> Balanced(log, names[k])
  {
    if names == [] then []
    else AllPairs(log, names[..|names| - 1]) + Pairs(log, names[|names| - 1])
  }

  /** The first name, in scan order, whose markers do not pair up. */
  function FirstUnbalanced(log: string, names: seq<TagName>): (r: Option<TagName>)
    ensures r.Some? ==> r.value in names && !Balanced(log, r.value)
    ensures r.None? <==> forall k :: 0 <= k < |names| ==> Balanced(log, names[k])
  {
    if names == [] then None
    else if !Balanced(log, names[0]) then Some(names[0])
    else FirstUnbalanced(log, names[1..])
  }

  function MismatchMessage(n: TagName): string {
    "For tag '" + NameText(n) + "', start and end tags do not match!"
  }

  predicate Sorted(s: seq<Located>) {
    forall i, j :: 0 <= i < j < |s| ==> s[i].offset <= s[j].offset
  }

  /** Insertion by offset, before the entries with the same offset. */
  function InsertByOffset(x: Located, ys: seq<Located>): (r: seq<Located>)
    ensures multiset(r) == multiset(ys) + multiset{x}
    ensures r[0] == x || (ys != [] && r[0] == ys[0])
  {
    if ys == [] || x.offset <= ys[0].offset then [x] + ys
    else
      assert ys == [ys[0]] + ys[1..];
      [ys[0]] + InsertByOffset(x, ys[1..])
  }

  /** An entry no later than the head of a sorted sequence can go in front of it. */
  lemma ConsSorted(a: Located, rest: seq<Located>)
    requires Sorted(rest) && (rest == [] || a.offset <= rest[0].offset)
    ensures Sorted([a] + rest)
  {
    var r := [a] + rest;
    forall i, j | 0 <= i < j < |r| ensures r[i].offset <= r[j].offset {
      assert r[j] == rest[j - 1];
      if i > 0 {
        assert r[i] == rest[i - 1];
      } else {
        assert rest[0].offset <= rest[j - 1].offset;
      }
    }
  }

  lemma {:induction false} InsertSorted(x: Located, ys: seq<Located>)
    requires Sorted(ys)
    ensures Sorted(InsertByOffset(x, ys))
  {
    if ys == [] || x.offset <= ys[0].offset {
      ConsSorted(x, ys);
    } else {
      var tail := ys[1..];
      var rest := InsertByOffset(x, tail);
      assert Sorted(tail) by {
        forall i, j | 0 <= i < j < |tail| ensures tail[i].offset <= tail[j].offset {
          assert tail[i] == ys[i + 1] && tail[j] == ys[j + 1];
        }
      }
      InsertSorted(x, tail);
      if tail != [] {
        assert ys[0].offset <= ys[1].offset;
        assert tail[0] == ys[1];
      }
      ConsSorted(ys[0], rest);
    }
  }

  /** tags.sort(key=offset) */
  function SortByOffset(xs: seq<Located>): (r: seq<Located>)
    ensures Sorted(r) && multiset(r) == multiset(xs)
  {
    if xs == [] then []
    else
      assert xs == [xs[0]] + xs[1..];
      InsertSorted(xs[0], SortByOffset(xs[1..]));
      InsertByOffset(xs[0], SortByOffset(xs[1..]))
  }

  /** [tag[1:] for tag in tags] */
  function Strip(ls: seq<Located>): (r: seq<Tag>)
    ensures |r| == |ls|
    ensures forall i :: 0 <= i < |ls| ==> r[i] == Tag(ls[i].name, ls[i].content)
  {
    seq(|ls|, i requires 0 <= i < |ls| => Tag(ls[i].name, ls[i].content))
  }

  /** What extract_tags returns or raises for a log. */
  function Extract(log: string): Result<seq<Tag>, string> {
    match FirstUnbalanced(log, TagNames)
    case Some(n) => Err(MismatchMessage(n))
    case None => Ok(Strip(SortByOffset(AllPairs(log, TagNames))))
  }

  /** extract_tags raises exactly when some tag name's start and end markers differ in number. */
  lemma ExtractFailsIffUnbalanced(log: string)
    ensures Extract(log).Err? <==> exists n: TagName :: !Balanced(log, n)
  {
    if exists n: TagName :: !Balanced(log, n) {
      var n: TagName :| !Balanced(log, n);
      var k := match n case UnityTest => 0 case UnityIgnoredTest => 1 case UnityResult => 2;
      assert TagNames[k] == n;
    }
  }

  /** The tags come out in ascending offset order and are exactly the tags found, less their offsets. */
  lemma ExtractOrdered(log: string)
    requires Extract(log).Ok?
    ensures exists ys :: Sorted(ys) && multiset(ys) == multiset(AllPairs(log, TagNames))
                         && Extract(log).value == Strip(ys)
  {
    var ys := SortByOffset(AllPairs(log, TagNames));
    assert Sorted(ys) && multiset(ys) == multiset(AllPairs(log, TagNames)) && Extract(log).value == Strip(ys);
  }

  /**
   * The k-th tag of a name is the text the k-th start marker and the k-th
   * end marker enclose, or empty when that end marker does not follow the
   * start marker.
   */
  lemma TagContentBetweenMarkers(log: string, n: TagName, k: nat)
    requires Balanced(log, n) && k < |Starts(log, n)|
    ensures Occurs(log, StartMarker(n), Starts(log, n)[k]) && Occurs(log, EndMarker(n), Ends(log, n)[k])
    ensures var p, q := Starts(log, n)[k], Ends(log, n)[k];
            p + |StartMarker(n)| <= q ==>
              log[p..q + |EndMarker(n)|] == StartMarker(n) + PairAt(log, n, k).content + EndMarker(n)
    ensures Ends(log, n)[k] < Starts(log, n)[k] + |StartMarker(n)| ==> PairAt(log, n, k).content == []
  {
    var p, q := Starts(log, n)[k], Ends(log, n)[k];
    var sm, em := StartMarker(n), EndMarker(n);
    FindAllOccurs(log, sm, 0, k);
    FindAllOccurs(log, em, 0, k);
    if p + |sm| <= q {
      assert PairAt(log, n, k).content == log[p + |sm|..q];
      Bracketed(log, sm, em, p, q);
    }
  }

  /** Between an occurrence of sm at p and one of em at q, the text is sm, what lies between, em. */
  lemma Bracketed(s: string, sm: string, em: string, p: nat, q: nat)
    requires Occurs(s, sm, p) && Occurs(s, em, q) && p + |sm| <= q
    ensures s[p..q + |em|] == sm + s[p + |sm|..q] + em
  {
    assert s[p..q + |em|] == s[p..q] + s[q..q + |em|];
    assert s[p..q] == s[p..p + |sm|] + s[p + |sm|..q];
  }

  /** The loop of extract_tags over the zipped start and end offsets of one name. */
  method AppendPairs(log: string, n: TagName, startOffsets: seq<nat>, endOffsets: seq<nat>, located: seq<Located>)
    returns (r: seq<Located>)
    requires startOffsets == Starts(log, n) && endOffsets == Ends(log, n) && Balanced(log, n)
    ensures r == located + Pairs(log, n)
  {
    r := located;
    var k := 0;
    while k < |startOffsets|
      invariant 0 <= k <= |startOffsets|
      invariant r == located + Pairs(log, n)[..k]
    {
      var p := startOffsets[k] + |StartMarker(n)|;
      PairsStep(log, n, k);
      r := r + [Located(p, n, Slice(log, p, endOffsets[k]))];
      k := k + 1;
    }
    assert Pairs(log, n)[..k] == Pairs(log, n);
  }

  lemma PairsStep(log: string, n: TagName, k: nat)
    requires Balanced(log, n) && k < |Starts(log, n)|
    ensures var p := Starts(log, n)[k] + |StartMarker(n)|;
            Pairs(log, n)[..k + 1] == Pairs(log, n)[..k] + [Located(p, n, Slice(log, p, Ends(log, n)[k]))]
  {
    var pairs := Pairs(log, n);
    assert pairs[k] == PairAt(log, n, k);
    assert pairs[..k + 1] == pairs[..k] + [pairs[k]];
  }

  /** The scan for an unbalanced name at i stops there or moves on to i + 1. */
  lemma FirstUnbalancedStep(log: string, names: seq<TagName>, i: nat)
    requires i < |names|
    ensures !Balanced(log, names[i]) ==> FirstUnbalanced(log, names[i..]) == Some(names[i])
    ensures Balanced(log, names[i]) ==> FirstUnbalanced(log, names[i..]) == FirstUnbalanced(log, names[i + 1..])
  {
    assert names[i..][0] == names[i];
    assert names[i..][1..] == names[i + 1..];
  }

  /** The tags of the first i + 1 names are those of the first i, then those of name i. */
  lemma AllPairsStep(log: string, names: seq<TagName>, i: nat)
    requires i < |names| && forall k :: 0 <= k <= i ==> Balanced(log, names[k])
    ensures AllPairs(log, names[..i + 1]) == AllPairs(log, names[..i]) + Pairs(log, names[i])
  {
    assert names[..i + 1][..i] == names[..i];
    assert names[..i + 1][i] == names[i];
  }

  /** extract_tags */
  method ExtractTags(log: string) returns (r: Result<seq<Tag>, string>)
    ensures r == Extract(log)
  {
    var located: seq<Located> := [];
    var i := 0;
    while i < |TagNames|
      invariant 0 <= i <= |TagNames|
      invariant forall k :: 0 <= k < i ==> Balanced(log, TagNames[k])
      invariant FirstUnbalanced(log, TagNames) == FirstUnbalanced(log, TagNames[i..])
      invariant located == AllPairs(log, TagNames[..i])
    {
      var n := TagNames[i];
      var startOffsets := FindAll(log, StartMarker(n), 0);
      var endOffsets := FindAll(log, EndMarker(n), 0);
      FirstUnbalancedStep(log, TagNames, i);
      if |startOffsets| != |endOffsets| {
        return Err(MismatchMessage(n));
      }
      located := AppendPairs(log, n, startOffsets, endOffsets, located);
      AllPairsStep(log, TagNames, i);
      i := i + 1;
    }
    assert TagNames[..i] == TagNames;
    r := Ok(Strip(SortByOffset(located)));
  }

  // ---------------------------------------------------------------------
  // get_test_group_and_name, get_ignored_test_group_and_name
  // ---------------------------------------------------------------------

  datatype TestId = TestId(group: string, name: string)

  /**
   * re.match of `prefix(.*), (.*)\)` succeeds with group 1 ending at a
   * and group 2 at b: `.` matches anything but a newline, and nothing is
   * required after the closing parenthesis.
   */
  predicate MatchAt(prefix: string, s: string, a: nat, b: nat) {
    |prefix| <= a && a + 2 <= b < |s| && s[..|prefix|] == prefix
    && s[a] == ',' && s[a + 1] == ' ' && s[b] == ')'
    && forall k :: |prefix| <= k < b ==> s[k] != '\n'
  }

  /** The first newline at or after i, or the end of s. */
  function LineEnd(s: string, i: nat): (j: nat)
    requires i <= |s|
    ensures i <= j <= |s| && (j < |s| ==> s[j] == '\n')
    ensures forall k :: i <= k < j ==> s[k] != '\n'
    decreases |s| - i
  {
    if i == |s| || s[i] == '\n' then i else LineEnd(s, i + 1)
  }

  /** The last index in [lo, hi) holding c. */
  function LastOf(s: string, c: char, lo: nat, hi: nat): (r: Option<nat>)
    requires hi <= |s|
    ensures r.Some? ==> lo <= r.value < hi && s[r.value] == c
    ensures r.Some? ==> forall k :: r.value < k < hi ==> s[k] != c
    ensures r.None? ==> forall k :: lo <= k < hi ==> s[k] != c
    decreases hi
  {
    if hi <= lo then None
    else if s[hi - 1] == c then Some(hi - 1)
    else LastOf(s, c, lo, hi - 1)
  }

  /** The last index a in [lo, hi) where ", " starts. */
  function LastSeparator(s: string, lo: nat, hi: nat): (r: Option<nat>)
    requires hi < |s|
    ensures r.Some? ==> lo <= r.value < hi && s[r.value] == ',' && s[r.value + 1] == ' '
    ensures r.Some? ==> forall k :: r.value < k < hi ==> !(s[k] == ',' && s[k + 1] == ' ')
    ensures r.None? ==> forall k :: lo <= k < hi ==> !(s[k] == ',' && s[k + 1] == ' ')
    decreases hi
  {
    if hi <= lo then None
    else if s[hi - 1] == ',' && s[hi] == ' ' then Some(hi - 1)
    else LastSeparator(s, lo, hi - 1)
  }

  /**
   * The match the greedy groups find: the first group as long as any
   * match allows, then the second as long as possible.
   */
  function GreedySplit(prefix: string, s: string): (r: Option<(nat, nat)>)
    ensures r.Some? ==> MatchAt(prefix, s, r.value.0, r.value.1)
    ensures r.Some? ==> forall a: nat, b: nat :: MatchAt(prefix, s, a, b) ==> a <= r.value.0 && b <= r.value.1
    ensures r.None? ==> forall a: nat, b: nat :: !MatchAt(prefix, s, a, b)
  {
    if |s| < |prefix| || s[..|prefix|] != prefix then None
    else
      var eol := LineEnd(s, |prefix|);
      match LastOf(s, ')', |prefix|, eol)
      case None => None
      case Some(b) =>
        if b < 1 then None
        else match LastSeparator(s, |prefix|, b - 1)
          case None => None
          case Some(a) => Some((a, b))
  }

  function ParseName(prefix: string, s: string): (r: Option<TestId>)
    ensures r.Some? <==> exists a: nat, b: nat :: MatchAt(prefix, s, a, b)
  {
    match GreedySplit(prefix, s)
    case None => None
    case Some((a, b)) => Some(TestId(s[|prefix|..a], s[a + 2..b]))
  }

  const ParseError: string := "Erorr parsing test group and name"

  function GetTestGroupAndName(printableName: string): (r: Result<TestId, string>)
    ensures r.Err? <==> forall a: nat, b: nat :: !MatchAt("TEST(", printableName, a, b)
  {
    match ParseName("TEST(", printableName)
    case None => Err(ParseError)
    case Some(id) => Ok(id)
  }

  function GetIgnoredTestGroupAndName(printableName: string): (r: Result<TestId, string>)
    ensures r.Err? <==> forall a: nat, b: nat :: !MatchAt("IGNORE_TEST(", printableName, a, b)
  {
    match ParseName("IGNORE_TEST(", printableName)
    case None => Err(ParseError)
    case Some(id) => Ok(id)
  }

  predicate NoSeparator(n: string) {
    forall k :: 0 <= k < |n| - 1 ==> !(n[k] == ',' && n[k + 1] == ' ')
  }

  /**
   * A printable name built from a group and a name on one line comes back
   * apart, when the name holds no ", " and no ')' (the greedy first group
   * takes the last separator, the second group runs to the last ')').
   */
  lemma {:induction false} ParseNameRoundTrip(prefix: string, g: string, n: string)
    requires '\n' !in g && '\n' !in n && ')' !in n && NoSeparator(n)
    requires '\n' !in prefix
    ensures ParseName(prefix, prefix + g + ", " + n + ")") == Some(TestId(g, n))
  {
    var s := prefix + g + ", " + n + ")";
    var a, b := |prefix| + |g|, |prefix| + |g| + 2 + |n|;
    NameLayout(prefix, g, n, s, a, b);
    var r := GreedySplit(prefix, s);
    var a', b' := r.value.0, r.value.1;
    assert MatchAt(prefix, s, a', b') && a <= a' && b <= b';
    assert b' == b;
    assert a' == a;
    assert ParseName(prefix, s) == Some(TestId(s[|prefix|..a'], s[a' + 2..b']));
  }

  /** Where the parts of a printable name lie, and that its only separator after the group is the one added. */
  lemma NameLayout(prefix: string, g: string, n: string, s: string, a: nat, b: nat)
    requires '\n' !in g && '\n' !in n && NoSeparator(n)
    requires '\n' !in prefix
    requires s == prefix + g + ", " + n + ")" && a == |prefix| + |g| && b == a + 2 + |n|
    ensures MatchAt(prefix, s, a, b) && |s| == b + 1 && s[|prefix|..a] == g && s[a + 2..b] == n
    ensures forall x :: a < x < b - 1 ==> !(s[x] == ',' && s[x + 1] == ' ')
  {
    assert s[..|prefix|] == prefix;
    assert forall k :: |prefix| <= k < a ==> s[k] == g[k - |prefix|];
    assert forall k :: a + 2 <= k < b ==> s[k] == n[k - a - 2];
    assert s[a] == ',' && s[a + 1] == ' ' && s[b] == ')' && |s| == b + 1;
    assert s[|prefix|..a] == g;
    assert s[a + 2..b] == n;
  }

  /** A name with more after its closing parenthesis on the same line keeps it in the second group. */
  lemma TrailingTextJoinsName()
    ensures GetTestGroupAndName("TEST(g, n) x)") == Ok(TestId("g", "n) x"))
  {
    var s := "TEST(g, n) x)";
    assert MatchAt("TEST(", s, 6, 12);
    var r := GreedySplit("TEST(", s);
    assert r.value.1 == 12;
    assert r.value.0 == 6 by {
      assert forall k :: 6 < k < 11 ==> !(s[k] == ',' && s[k + 1] == ' ');
    }
    assert s[5..6] == "g" && s[8..12] == "n) x";
  }

  // ---------------------------------------------------------------------
  // collect_tests
  // ---------------------------------------------------------------------

  /** One entry of the tests list: the test (None while curTest is still "") and its status text. */
  datatype TestResult = TestResult(id: Option<TestId>, status: string)

  /** curTest and resultHandled. */
  datatype Cursor = Cursor(cur: Option<TestId>, handled: bool)

  function Prepend(x: TestResult, r: Result<seq<TestResult>, string>): Result<seq<TestResult>, string> {
    if r.Err? then r else Ok([x] + r.value)
  }

  function PrependAll(xs: seq<TestResult>, r: Result<seq<TestResult>, string>): Result<seq<TestResult>, string> {
    if r.Err? then r else Ok(xs + r.value)
  }

  lemma PrependAllStep(xs: seq<TestResult>, x: TestResult, r: Result<seq<TestResult>, string>)
    ensures PrependAll(xs, Prepend(x, r)) == PrependAll(xs + [x], r)
  {
    if r.Ok? {
      assert xs + ([x] + r.value) == (xs + [x]) + r.value;
    }
  }

  /** What collect_tests returns or raises for the tags still to come, from cursor c. */
  function CollectFrom(tags: seq<Tag>, c: Cursor): Result<seq<TestResult>, string>
    decreases |tags|
  {
    if tags == [] then Ok([])
    else
      var t := tags[0];
      match t.name
      case UnityTest =>
        (match GetTestGroupAndName(t.content)
         case Err(e) => Err(e)
         case Ok(id) => CollectFrom(tags[1..], Cursor(Some(id), false)))
      case UnityResult =>
        if !c.handled then Prepend(TestResult(c.cur, t.content), CollectFrom(tags[1..], c.(handled := true)))
        else CollectFrom(tags[1..], c)
      case UnityIgnoredTest =>
        (match GetIgnoredTestGroupAndName(t.content)
         case Err(e) => Err(e)
         case Ok(id) => Prepend(TestResult(Some(id), "IGNORE"), CollectFrom(tags[1..], c.(cur := Some(id)))))
  }

  function CountName(tags: seq<Tag>, n: TagName): (r: nat)
    ensures r <= |tags|
  {
    if tags == [] then 0 else (if tags[0].name == n then 1 else 0) + CountName(tags[1..], n)
  }

  function CountStatus(tests: seq<TestResult>, status: string): (r: nat)
    ensures r <= |tests|
  {
    if tests == [] then 0
    else (if tests[0].status == status then 1 else 0) + CountStatus(tests[1..], status)
  }

  /** The number of tests with a status is positive exactly when one has it. */
  lemma {:induction false} CountStatusPositive(tests: seq<TestResult>, status: string)
    ensures CountStatus(tests, status) > 0 <==> exists i :: 0 <= i < |tests| && tests[i].status == status
  {
    if tests != [] {
      var tail := tests[1..];
      CountStatusPositive(tail, status);
      if exists i :: 0 <= i < |tests| && tests[i].status == status {
        var i :| 0 <= i < |tests| && tests[i].status == status;
        if i > 0 {
          assert tail[i - 1] == tests[i];
        }
      }
      if exists i :: 0 <= i < |tail| && tail[i].status == status {
        var i :| 0 <= i < |tail| && tail[i].status == status;
        assert tests[i + 1] == tail[i];
      }
    }
  }

  lemma {:induction false} CountStatusAppend(tests: seq<TestResult>, x: TestResult, status: string)
    ensures CountStatus(tests + [x], status) == CountStatus(tests, status) + (if x.status == status then 1 else 0)
  {
    if tests != [] {
      assert (tests + [x])[1..] == tests[1..] + [x];
      CountStatusAppend(tests[1..], x, status);
    }
  }

  /** Results already handled for the current test are skipped. */
  lemma {:induction false} HandledResultsSkipped(rs: seq<Tag>, rest: seq<Tag>, c: Cursor)
    requires c.handled
    requires forall i :: 0 <= i < |rs| ==> rs[i].name == UnityResult
    ensures CollectFrom(rs + rest, c) == CollectFrom(rest, c)
    decreases |rs|
  {
    if rs != [] {
      assert (rs + rest)[0] == rs[0];
      assert (rs + rest)[1..] == rs[1..] + rest;
      assert forall i :: 0 <= i < |rs[1..]| ==> rs[1..][i] == rs[i + 1];
      HandledResultsSkipped(rs[1..], rest, c);
    } else {
      assert rs + rest == rest;
    }
  }

  /** A test tag followed by results records the test once, with the first result. */
  lemma FirstResultOnly(v: string, rs: seq<Tag>, rest: seq<Tag>, c: Cursor)
    requires GetTestGroupAndName(v).Ok?
    requires |rs| >= 1 && forall i :: 0 <= i < |rs| ==> rs[i].name == UnityResult
    ensures var id := GetTestGroupAndName(v).value;
            CollectFrom([Tag(UnityTest, v)] + rs + rest, c)
            == Prepend(TestResult(Some(id), rs[0].content), CollectFrom(rest, Cursor(Some(id), true)))
  {
    var id := GetTestGroupAndName(v).value;
    var tags := [Tag(UnityTest, v)] + rs + rest;
    assert tags[1..] == rs + rest;
    assert (rs + rest)[0] == rs[0];
    assert (rs + rest)[1..] == rs[1..] + rest;
    HandledResultsSkipped(rs[1..], rest, Cursor(Some(id), true));
  }

  /**
   * collect_tests records one IGNORE entry per ignored-test tag and at most
   * one entry per test tag, plus one for a result before any test tag.
   */
  lemma {:induction false} CollectCounts(tags: seq<Tag>, c: Cursor)
    requires CollectFrom(tags, c).Ok?
    ensures var tests := CollectFrom(tags, c).value;
            CountName(tags, UnityIgnoredTest) <= CountStatus(tests, "IGNORE")
            && CountName(tags, UnityIgnoredTest) <= |tests|
            <= CountName(tags, UnityIgnoredTest) + CountName(tags, UnityTest) + (if c.handled then 0 else 1)
    decreases |tags|
  {
    if tags != [] {
      var t := tags[0];
      match t.name
      case UnityTest =>
        var id := GetTestGroupAndName(t.content).value;
        CollectCounts(tags[1..], Cursor(Some(id), false));
      case UnityResult =>
        if !c.handled {
          CollectCounts(tags[1..], c.(handled := true));
        } else {
          CollectCounts(tags[1..], c);
        }
      case UnityIgnoredTest =>
        var id := GetIgnoredTestGroupAndName(t.content).value;
        CollectCounts(tags[1..], c.(cur := Some(id)));
    }
  }

  /** collect_tests */
  method CollectTests(tags: seq<Tag>) returns (r: Result<seq<TestResult>, string>)
    ensures r == CollectFrom(tags, Cursor(None, false))
  {
    var tests: seq<TestResult> := [];
    var curTest: Option<TestId> := None;
    var resultHandled := false;
    var i := 0;
    assert tags[0..] == tags;
    var all := CollectFrom(tags, Cursor(None, false));
    assert all.Ok? ==> [] + all.value == all.value;
    while i < |tags|
      invariant 0 <= i <= |tags|
      invariant CollectFrom(tags, Cursor(None, false))
                == PrependAll(tests, CollectFrom(tags[i..], Cursor(curTest, resultHandled)))
      decreases |tags| - i
    {
      var tag := tags[i];
      assert tags[i..][0] == tag && tags[i..][1..] == tags[i + 1..];
      match tag.name {
      case UnityTest =>
        var parsed := GetTestGroupAndName(tag.content);
        if parsed.Err? {
          return Err(parsed.error);
        }
        curTest := Some(parsed.value);
        resultHandled := false;
      case UnityResult =>
        if !resultHandled {
          PrependAllStep(tests, TestResult(curTest, tag.content), CollectFrom(tags[i + 1..], Cursor(curTest, true)));
          tests := tests + [TestResult(curTest, tag.content)];
          resultHandled := true;
        }
      case UnityIgnoredTest =>
        var parsed := GetIgnoredTestGroupAndName(tag.content);
        if parsed.Err? {
          return Err(parsed.error);
        }
        curTest := Some(parsed.value);
        PrependAllStep(tests, TestResult(curTest, "IGNORE"), CollectFrom(tags[i + 1..], Cursor(curTest, resultHandled)));
        tests := tests + [TestResult(curTest, "IGNORE")];
      }
      i := i + 1;
    }
    assert tags[i..] == [] && tests + [] == tests;
    r := Ok(tests);
  }

  // ---------------------------------------------------------------------
  // generate_text_output, generate_junit_xml_output
  // ---------------------------------------------------------------------

  /** The results table of the text report and its final status. */
  datatype Summary = Summary(total: nat, passed: nat, failed: nat, ignored: nat, finalStatus: string)

  const IndexErrorMessage: string := "string index out of range"

  /** The pass, fail and ignore counts never add up to more than the tests. */
  lemma {:induction false} TalliesBounded(tests: seq<TestResult>)
    ensures CountStatus(tests, "PASS") + CountStatus(tests, "FAIL") + CountStatus(tests, "IGNORE") <= |tests|
  {
    if tests != [] {
      TalliesBounded(tests[1..]);
    }
  }

  lemma TallyStep(tests: seq<TestResult>, i: nat, st: string)
    requires i < |tests|
    ensures CountStatus(tests[..i + 1], st) == CountStatus(tests[..i], st) + (if tests[i].status == st then 1 else 0)
  {
    assert tests[..i + 1] == tests[..i] + [tests[i]];
    CountStatusAppend(tests[..i], tests[i], st);
  }

  /** The counting loop and the final status of generate_text_output. */
  method TextSummary(tests: seq<TestResult>) returns (r: Result<Summary, string>)
    ensures r.Err? <==> exists i :: 0 <= i < |tests| && tests[i].id.None?
    ensures r.Ok? ==> r.value.total == |tests| && r.value.passed == CountStatus(tests, "PASS")
                      && r.value.failed == CountStatus(tests, "FAIL") && r.value.ignored == CountStatus(tests, "IGNORE")
    ensures r.Ok? ==> r.value.finalStatus in {"FAIL", "PASS"}
    ensures r.Ok? ==> (r.value.finalStatus == "FAIL" <==> |tests| == 0 || exists i :: 0 <= i < |tests| && tests[i].status == "FAIL")
  {
    var testsCount := |tests|;
    var failingTests, passedTests, ignoredTests := 0, 0, 0;
    var i := 0;
    while i < |tests|
      invariant 0 <= i <= |tests|
      invariant forall j :: 0 <= j < i ==> tests[j].id.Some?
      invariant passedTests == CountStatus(tests[..i], "PASS")
      invariant failingTests == CountStatus(tests[..i], "FAIL")
      invariant ignoredTests == CountStatus(tests[..i], "IGNORE")
    {
      var test := tests[i];
      if test.id.None? {
        return Err(IndexErrorMessage);
      }
      TallyStep(tests, i, "PASS");
      TallyStep(tests, i, "FAIL");
      TallyStep(tests, i, "IGNORE");
      if test.status == "FAIL" {
        failingTests := failingTests + 1;
      }
      if test.status == "PASS" {
        passedTests := passedTests + 1;
      }
      if test.status == "IGNORE" {
        ignoredTests := ignoredTests + 1;
      }
      i := i + 1;
    }
    assert tests[..i] == tests;
    CountStatusPositive(tests, "FAIL");
    var finalStatus := if testsCount == 0 || failingTests > 0 then "FAIL" else "PASS";
    r := Ok(Summary(testsCount, passedTests, failingTests, ignoredTests, finalStatus));
  }

  /** One testcase element and whether it holds a failure or a skipped element. */
  datatype TestCase = TestCase(classname: string, name: string, failure: bool, skipped: bool)

  /** The testsuite element: its tests attribute and its testcases. */
  datatype Suite = Suite(tests: nat, cases: seq<TestCase>)

  /** generate_junit_xml_output, the file written as the document it holds. */
  method JUnitReport(packageName: string, tests: seq<TestResult>) returns (r: Result<Suite, string>)
    ensures r.Err? <==> exists i :: 0 <= i < |tests| && tests[i].id.None?
    ensures r.Ok? ==> r.value.tests == |tests| && |r.value.cases| == |tests|
    ensures r.Ok? ==> forall i :: 0 <= i < |tests| ==>
              tests[i].id.Some?
              && r.value.cases[i].classname == packageName + "." + tests[i].id.value.group
              && r.value.cases[i].name == tests[i].id.value.name
              && (r.value.cases[i].failure <==> tests[i].status == "FAIL")
              && (r.value.cases[i].skipped <==> tests[i].status == "IGNORE")
  {
    var cases: seq<TestCase> := [];
    var i := 0;
    while i < |tests|
      invariant 0 <= i <= |tests| && |cases| == i
      invariant forall j :: 0 <= j < i ==>
                  tests[j].id.Some?
                  && cases[j] == TestCase(packageName + "." + tests[j].id.value.group, tests[j].id.value.name,
                                          tests[j].status == "FAIL", tests[j].status == "IGNORE")
    {
      var test := tests[i];
      if test.id.None? {
        return Err(IndexErrorMessage);
      }
      cases := cases + [TestCase(packageName + "." + test.id.value.group, test.id.value.name,
                                 test.status == "FAIL", test.status == "IGNORE")];
      i := i + 1;
    }
    r := Ok(Suite(|tests|, cases));
  }
}
