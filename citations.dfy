/**
 * Citation helpers: turning a grounded model response into citation
 * records (`getCitations`) and splicing markdown link markers into the
 * answer text at each citation's end index (`insertCitationMarkers`).
 */
module Citations {
  import opened ResearchTypes

  /** `label` is named `linkLabel` here, since `label` is a Dafny keyword. */
  datatype CitationSegment = CitationSegment(linkLabel: string, shortUrl: string, value: string)

  datatype CitationInfo = CitationInfo(startIndex: int, endIndex: int, segments: seq<CitationSegment>)

  // ---------------------------------------------------------------------
  // Markers
  // ---------------------------------------------------------------------

  /** `` ` [${linkLabel}](${short_url})` `` */
  function SegmentMarker(seg: CitationSegment): (m: string)
    ensures |m| == |seg.linkLabel| + |seg.shortUrl| + 5
  {
    " [" + seg.linkLabel + "](" + seg.shortUrl + ")"
  }

  /** What one citation inserts: its segments' markers, in segment order. */
  function Marker(segments: seq<CitationSegment>): string
  {
    if segments == [] then ""
    else Marker(segments[..|segments| - 1]) + SegmentMarker(segments[|segments| - 1])
  }

  /** Markers concatenate segment by segment; no segments, no marker. */
  lemma {:induction false} MarkerAppend(a: seq<CitationSegment>, b: seq<CitationSegment>)
    ensures Marker([]) == ""
    ensures Marker(a + b) == Marker(a) + Marker(b)
    decreases |b|
  {
    if b == [] {
      assert a + b == a;
    } else {
      var n := |b|;
      assert (a + b)[..|a + b| - 1] == a + b[..n - 1];
      MarkerAppend(a, b[..n - 1]);
      Regroup(Marker(a + b), Marker(b), Marker(a), Marker(b[..n - 1]), SegmentMarker(b[n - 1]));
    }
  }

  lemma Regroup(x: string, y: string, head: string, m: string, tail: string)
    requires x == (head + m) + tail && y == m + tail
    ensures x == head + y
  {
  }

  // ---------------------------------------------------------------------
  // The processing order
  // ---------------------------------------------------------------------

  /**
   * The comparator of the sort: `a` goes strictly before `b` when its end
   * index is larger, or the end indices agree and its start index is larger.
   */
  predicate Precedes(a: CitationInfo, b: CitationInfo)
  {
    a.endIndex > b.endIndex || (a.endIndex == b.endIndex && a.startIndex > b.startIndex)
  }

  /** Descending end index, ties by descending start index. */
  predicate Ordered(s: seq<CitationInfo>)
  {
    forall i, j :: 0 <= i < j < |s| ==> !Precedes(s[j], s[i])
  }

  /** Inserts `x` before the first element that does not strictly precede it (so ties keep their order). */
  function InsertByEnd(x: CitationInfo, s: seq<CitationInfo>): (r: seq<CitationInfo>)
    ensures multiset(r) == multiset(s) + multiset{x}
    ensures Ordered(s) ==> Ordered(r)
  {
    if s == [] || !Precedes(s[0], x) then
      assert Ordered(s) ==> Ordered([x] + s) by {
        if Ordered(s) {
          ConsOrdered(x, s);
        }
      }
      [x] + s
    else
      var rest := InsertByEnd(x, s[1..]);
      assert s == [s[0]] + s[1..];
      assert Ordered(s) ==> Ordered([s[0]] + rest) by {
        if Ordered(s) {
          HeadStaysFirst(x, s, rest);
          ConsOrdered(s[0], rest);
        }
      }
      [s[0]] + rest
  }

  /** Putting `h` in front keeps the order when nothing after it strictly precedes it. */
  lemma ConsOrdered(h: CitationInfo, rest: seq<CitationInfo>)
    requires Ordered(rest)
    requires forall j :: 0 <= j < |rest| ==> !Precedes(rest[j], h)
    ensures Ordered([h] + rest)
  {
  }

  lemma HeadStaysFirst(x: CitationInfo, s: seq<CitationInfo>, rest: seq<CitationInfo>)
    requires s != [] && Precedes(s[0], x) && Ordered(s)
    requires multiset(rest) == multiset(s[1..]) + multiset{x}
    ensures forall j :: 0 <= j < |rest| ==> !Precedes(rest[j], s[0])
  {
    forall j | 0 <= j < |rest| ensures !Precedes(rest[j], s[0]) {
      assert rest[j] in multiset(rest);
      if rest[j] != x {
        assert rest[j] in s[1..];
        var k :| 0 <= k < |s[1..]| && s[1..][k] == rest[j];
        assert s[k + 1] == rest[j];
      }
    }
  }

  /** `[...citationsList].sort(comparator)`: a stable sort, as JavaScript's is. */
  function SortByEnd(s: seq<CitationInfo>): (r: seq<CitationInfo>)
    ensures multiset(r) == multiset(s)
    ensures Ordered(r)
  {
    if s == [] then []
    else
      assert s == [s[0]] + s[1..];
      InsertByEnd(s[0], SortByEnd(s[1..]))
  }

  // ---------------------------------------------------------------------
  // The text with markers, as a reference definition
  // ---------------------------------------------------------------------

  /**
   * The citations of `s` that end at `p`, the LAST one first: each marker
   * spliced in at `p` lands before the ones spliced in there earlier.
   */
  function AtEnd(s: seq<CitationInfo>, p: int): seq<CitationInfo>
  {
    if s == [] then []
    else
      var last := s[|s| - 1];
      (if last.endIndex == p then [last] else []) + AtEnd(s[..|s| - 1], p)
  }

  /** `AtEnd(s, p)` holds exactly the citations of `s` that end at `p`. */
  lemma {:induction false} AtEndMembers(s: seq<CitationInfo>, p: int)
    ensures forall c :: c in AtEnd(s, p) <==> c in s && c.endIndex == p
  {
    if s != [] {
      var init, last := s[..|s| - 1], s[|s| - 1];
      assert s == init + [last];
      AtEndMembers(init, p);
    }
  }

  function ConcatMarkers(s: seq<CitationInfo>): string
  {
    if s == [] then "" else Marker(s[0].segments) + ConcatMarkers(s[1..])
  }

  /**
   * The text from position `i` on, when the citations are processed in the
   * order of `s`: before each character (and at the very end) come the
   * markers of the citations ending there.
   */
  function Build(text: string, s: seq<CitationInfo>, i: int): string
    requires 0 <= i <= |text|
    decreases |text| - i, 1
  {
    ConcatMarkers(AtEnd(s, i)) + BuildTail(text, s, i)
  }

  /** Total length of all markers of `s`. */
  function TotalMarkerLength(s: seq<CitationInfo>): nat
  {
    if s == [] then 0 else |Marker(s[0].segments)| + TotalMarkerLength(s[1..])
  }

  lemma {:induction false} BuildNoCitations(text: string, i: int)
    requires 0 <= i <= |text|
    ensures Build(text, [], i) == text[i..]
    decreases |text| - i
  {
    if i < |text| {
      BuildNoCitations(text, i + 1);
      assert text[i..] == [text[i]] + text[i + 1..];
    }
  }

  /** Positions before every end index carry no marker. */
  lemma {:induction false} BuildSkip(text: string, s: seq<CitationInfo>, j: int, e: int)
    requires 0 <= j <= e <= |text|
    requires forall c :: c in s ==> c.endIndex >= e
    ensures Build(text, s, j) == text[j..e] + Build(text, s, e)
    decreases e - j
  {
    if j < e {
      AtEndMembers(s, j);
      if AtEnd(s, j) != [] {
        assert AtEnd(s, j)[0] in AtEnd(s, j);
      }
      assert AtEnd(s, j) == [];
      assert BuildTail(text, s, j) == [text[j]] + Build(text, s, j + 1);
      BuildSkip(text, s, j + 1, e);
      assert text[j..e] == [text[j]] + text[j + 1..e];
      ConsRegroup(Build(text, s, j), text[j], Build(text, s, j + 1), text[j + 1..e], Build(text, s, e));
    }
  }

  lemma ConsRegroup(x: string, ch: char, y: string, a: string, z: string)
    requires x == "" + ([ch] + y) && y == a + z
    ensures x == ([ch] + a) + z
  {
  }

  /**
   * A citation does not show after its end index: what follows the markers
   * there, with the citation processed last, is what follows them without it.
   */
  lemma {:induction false} BuildBeyond(text: string, s: seq<CitationInfo>, c: CitationInfo, i: int)
    requires 0 <= c.endIndex <= i <= |text|
    ensures BuildTail(text, s + [c], i) == BuildTail(text, s, i)
    decreases |text| - i, 0
  {
    if i < |text| {
      BuildAfter(text, s, c, i + 1);
      TailUnfold(text, s + [c], i);
      TailUnfold(text, s, i);
      ConsEqual(text[i], Build(text, s + [c], i + 1), Build(text, s, i + 1));
    }
  }

  /** Past its end index, a citation processed last changes nothing at all. */
  lemma {:induction false} BuildAfter(text: string, s: seq<CitationInfo>, c: CitationInfo, i: int)
    requires 0 <= c.endIndex < i <= |text|
    ensures Build(text, s + [c], i) == Build(text, s, i)
    decreases |text| - i, 1
  {
    BuildBeyond(text, s, c, i);
    assert (s + [c])[..|s + [c]| - 1] == s;
    assert AtEnd(s + [c], i) == AtEnd(s, i);
  }

  /** The last processed citation's marker goes first at its end index. */
  lemma BuildPush(text: string, s: seq<CitationInfo>, c: CitationInfo)
    requires 0 <= c.endIndex <= |text|
    ensures Build(text, s + [c], c.endIndex) == Marker(c.segments) + Build(text, s, c.endIndex)
  {
    var p := c.endIndex;
    AtEndPush(s, c);
    ConcatMarkersCons(c, AtEnd(s, p));
    BuildBeyond(text, s, c, p);
    var head, m, tail := Marker(c.segments), ConcatMarkers(AtEnd(s, p)), BuildTail(text, s, p);
    Regroup(Build(text, s + [c], p), Build(text, s, p), head, m, tail);
  }

  lemma ConcatMarkersCons(c: CitationInfo, m: seq<CitationInfo>)
    ensures ConcatMarkers([c] + m) == Marker(c.segments) + ConcatMarkers(m)
  {
    assert ([c] + m)[1..] == m;
  }

  /** What follows the markers at position `i`. */
  function BuildTail(text: string, s: seq<CitationInfo>, i: int): string
    requires 0 <= i <= |text|
    decreases |text| - i, 0
  {
    if i == |text| then "" else [text[i]] + Build(text, s, i + 1)
  }

  lemma TailUnfold(text: string, s: seq<CitationInfo>, i: int)
    requires 0 <= i < |text|
    ensures BuildTail(text, s, i) == [text[i]] + Build(text, s, i + 1)
  {
  }

  lemma ConsEqual(ch: char, a: string, b: string)
    requires a == b
    ensures [ch] + a == [ch] + b
  {
  }

  lemma AtEndPush(s: seq<CitationInfo>, c: CitationInfo)
    ensures AtEnd(s + [c], c.endIndex) == [c] + AtEnd(s, c.endIndex)
  {
    var sc := s + [c];
    assert sc[..|sc| - 1] == s && sc[|sc| - 1] == c;
  }

  /** Splicing the next citation's marker into the text built so far. */
  lemma SpliceStep(text: string, done: seq<CitationInfo>, c: CitationInfo, e: int, current: string)
    requires 0 <= c.endIndex <= e <= |text|
    requires forall d :: d in done ==> d.endIndex >= e
    requires current == text[..e] + Build(text, done, e)
    ensures current[..c.endIndex] + Marker(c.segments) + current[c.endIndex..]
         == text[..c.endIndex] + Build(text, done + [c], c.endIndex)
  {
    var p := c.endIndex;
    SliceAt(text, e, Build(text, done, e), p);
    BuildSkip(text, done, p, e);
    BuildPush(text, done, c);
    Regroup3(current[..p], Marker(c.segments), current[p..], Build(text, done + [c], p));
  }

  /** Cutting `text[..e] + b` at `p <= e`. */
  lemma SliceAt(text: string, e: int, b: string, p: int)
    requires 0 <= p <= e <= |text|
    ensures (text[..e] + b)[..p] == text[..p]
    ensures (text[..e] + b)[p..] == text[p..e] + b
  {
  }

  lemma Regroup3(a: string, m: string, b: string, y: string)
    requires y == m + b
    ensures a + m + b == a + y
  {
  }

  lemma {:induction false} BuildPushLength(text: string, s: seq<CitationInfo>, c: CitationInfo, j: int)
    requires 0 <= j <= c.endIndex <= |text|
    ensures |Build(text, s + [c], j)| == |Build(text, s, j)| + |Marker(c.segments)|
    decreases c.endIndex - j
  {
    if j == c.endIndex {
      BuildPush(text, s, c);
    } else {
      assert (s + [c])[..|s + [c]| - 1] == s;
      assert AtEnd(s + [c], j) == AtEnd(s, j);
      BuildPushLength(text, s, c, j + 1);
    }
  }

  lemma {:induction false} TotalAppend(s: seq<CitationInfo>, c: CitationInfo)
    ensures TotalMarkerLength(s + [c]) == TotalMarkerLength(s) + |Marker(c.segments)|
  {
    if s != [] {
      assert (s + [c])[1..] == s[1..] + [c];
      TotalAppend(s[1..], c);
    }
  }

  lemma {:induction false} TotalInsert(x: CitationInfo, s: seq<CitationInfo>)
    ensures TotalMarkerLength(InsertByEnd(x, s)) == TotalMarkerLength(s) + |Marker(x.segments)|
  {
    if s != [] && Precedes(s[0], x) {
      TotalInsert(x, s[1..]);
    }
  }

  /** The total marker length does not depend on the processing order. */
  lemma {:induction false} TotalSort(s: seq<CitationInfo>)
    ensures TotalMarkerLength(SortByEnd(s)) == TotalMarkerLength(s)
  {
    if s != [] {
      TotalSort(s[1..]);
      TotalInsert(s[0], SortByEnd(s[1..]));
    }
  }

  /** Inserting markers adds exactly their lengths to the text. */
  lemma {:induction false} BuildLength(text: string, s: seq<CitationInfo>)
    requires forall c :: c in s ==> 0 <= c.endIndex <= |text|
    ensures |Build(text, s, 0)| == |text| + TotalMarkerLength(s)
  {
    if s == [] {
      BuildNoCitations(text, 0);
    } else {
      var init, last := s[..|s| - 1], s[|s| - 1];
      assert s == init + [last];
      assert forall c :: c in init ==> c in s;
      BuildLength(text, init);
      BuildPushLength(text, init, last, 0);
      TotalAppend(init, last);
    }
  }

  /**
   * In a processing order, the markers that share an end index come out by
   * ascending start index.
   */
  lemma {:induction false} AtEndAscending(s: seq<CitationInfo>, p: int)
    requires Ordered(s)
    ensures forall i, j :: 0 <= i < j < |AtEnd(s, p)| ==> AtEnd(s, p)[i].startIndex <= AtEnd(s, p)[j].startIndex
  {
    if s != [] {
      var init, last := s[..|s| - 1], s[|s| - 1];
      assert Ordered(init);
      AtEndAscending(init, p);
      var rest := AtEnd(init, p);
      AtEndMembers(init, p);
      if last.endIndex == p {
        forall j | 0 <= j < |rest| ensures last.startIndex <= rest[j].startIndex {
          assert rest[j] in init;
          var k :| 0 <= k < |init| && init[k] == rest[j];
          assert !Precedes(s[|s| - 1], s[k]);
        }
      }
    }
  }

  /**
   * The markers at each position of the output: exactly the citations that
   * end there, by ascending start index.
   */
  lemma MarkersAtPosition(citationsList: seq<CitationInfo>, p: int)
    ensures forall c :: c in AtEnd(SortByEnd(citationsList), p) <==> c in citationsList && c.endIndex == p
    ensures var r := AtEnd(SortByEnd(citationsList), p);
      forall i, j :: 0 <= i < j < |r| ==> r[i].startIndex <= r[j].startIndex
  {
    var sorted := SortByEnd(citationsList);
    assert forall c :: c in sorted <==> c in multiset(citationsList);
    AtEndMembers(sorted, p);
    AtEndAscending(sorted, p);
  }

  /** The inner loop of `insertCitationMarkers`: one citation's marker, segment by segment. */
  method MarkerOf(segments: seq<CitationSegment>) returns (markerToInsert: string)
    ensures markerToInsert == Marker(segments)
  {
    markerToInsert := "";
    for m := 0 to |segments|
      invariant markerToInsert == Marker(segments[..m])
    {
      assert segments[..m + 1][..m] == segments[..m];
      markerToInsert := markerToInsert + SegmentMarker(segments[m]);
    }
    assert segments[..|segments|] == segments;
  }

  /** `insertCitationMarkers` */
  method InsertCitationMarkers(text: string, citationsList: seq<CitationInfo>) returns (modifiedText: string)
    requires forall c :: c in citationsList ==> 0 <= c.endIndex <= |text|
    ensures modifiedText == Build(text, SortByEnd(citationsList), 0)
    ensures |modifiedText| == |text| + TotalMarkerLength(citationsList)
    ensures citationsList == [] ==> modifiedText == text
  {
    var sortedCitations := SortByEnd(citationsList);
    forall j | 0 <= j < |sortedCitations| ensures 0 <= sortedCitations[j].endIndex <= |text| {
      assert sortedCitations[j] in multiset(citationsList);
    }
    modifiedText := text;
    ghost var e := |text|;
    for k := 0 to |sortedCitations|
      invariant 0 <= e <= |text|
      invariant forall j :: 0 <= j < k ==> sortedCitations[j].endIndex >= e
      invariant forall j :: k <= j < |sortedCitations| ==> sortedCitations[j].endIndex <= e
      invariant modifiedText == text[..e] + Build(text, sortedCitations[..k], e)
    {
      var citationInfo := sortedCitations[k];
      var endIdx := citationInfo.endIndex;
      var markerToInsert := MarkerOf(citationInfo.segments);
      SpliceNext(text, sortedCitations, k, e, modifiedText);
      OrderedTail(sortedCitations, k);
      modifiedText := modifiedText[..endIdx] + markerToInsert + modifiedText[endIdx..];
      e := endIdx;
    }
    assert sortedCitations[..|sortedCitations|] == sortedCitations;
    BuildComplete(text, citationsList, e);
  }

  /** The splicing loop's step: the citation at `k` goes in at its end index. */
  lemma SpliceNext(text: string, sorted: seq<CitationInfo>, k: int, e: int, current: string)
    requires 0 <= k < |sorted| && 0 <= sorted[k].endIndex <= e <= |text|
    requires forall j :: 0 <= j < k ==> sorted[j].endIndex >= e
    requires current == text[..e] + Build(text, sorted[..k], e)
    ensures current[..sorted[k].endIndex] + Marker(sorted[k].segments) + current[sorted[k].endIndex..]
         == text[..sorted[k].endIndex] + Build(text, sorted[..k + 1], sorted[k].endIndex)
    ensures forall j :: 0 <= j < k + 1 ==> sorted[j].endIndex >= sorted[k].endIndex
  {
    assert sorted[..k + 1] == sorted[..k] + [sorted[k]];
    assert forall d :: d in sorted[..k] ==> d.endIndex >= e;
    SpliceStep(text, sorted[..k], sorted[k], e, current);
  }

  /** In a processing order, nothing after position `k` ends later than the citation at `k`. */
  lemma OrderedTail(sorted: seq<CitationInfo>, k: int)
    requires Ordered(sorted) && 0 <= k < |sorted|
    ensures forall j :: k + 1 <= j < |sorted| ==> sorted[j].endIndex <= sorted[k].endIndex
  {
    forall j | k + 1 <= j < |sorted| ensures sorted[j].endIndex <= sorted[k].endIndex {
      assert !Precedes(sorted[j], sorted[k]);
    }
  }

  /** Once every citation is spliced in, the text before the last end index is untouched. */
  lemma BuildComplete(text: string, citationsList: seq<CitationInfo>, e: int)
    requires forall c :: c in citationsList ==> 0 <= c.endIndex <= |text|
    requires 0 <= e <= |text|
    requires forall j :: 0 <= j < |SortByEnd(citationsList)| ==> SortByEnd(citationsList)[j].endIndex >= e
    ensures text[..e] + Build(text, SortByEnd(citationsList), e) == Build(text, SortByEnd(citationsList), 0)
    ensures |Build(text, SortByEnd(citationsList), 0)| == |text| + TotalMarkerLength(citationsList)
    ensures citationsList == [] ==> Build(text, SortByEnd(citationsList), 0) == text
  {
    var sorted := SortByEnd(citationsList);
    assert forall c :: c in sorted ==> c in multiset(citationsList);
    BuildSkip(text, sorted, 0, e);
    assert text[..e] == text[0..e];
    BuildLength(text, sorted);
    TotalSort(citationsList);
    if citationsList == [] {
      BuildNoCitations(text, 0);
    }
  }

  // ---------------------------------------------------------------------
  // Reading citations out of a grounded response
  // ---------------------------------------------------------------------

  datatype WebChunk = WebChunk(uri: string, title: string)
  datatype GroundingChunk = GroundingChunk(web: Option<WebChunk>)
  /** `null` and `undefined` are both `None`. */
  datatype Segment = Segment(startIndex: Option<int>, endIndex: Option<int>)
  datatype GroundingSupport = GroundingSupport(segment: Option<Segment>, groundingChunkIndices: Option<seq<int>>)
  datatype GroundingMetadata = GroundingMetadata(groundingSupports: Option<seq<GroundingSupport>>, groundingChunks: Option<seq<GroundingChunk>>)
  datatype Candidate = Candidate(groundingMetadata: Option<GroundingMetadata>)
  datatype GeminiResponse = GeminiResponse(candidates: Option<seq<Candidate>>)

  /** `s.split(d)` */
  function Split(s: string, d: char): (parts: seq<string>)
    ensures |parts| >= 1
  {
    if s == [] then [[]]
    else
      var p := Split(s[..|s| - 1], d);
      var last := s[|s| - 1];
      if last == d then p + [[]] else p[..|p| - 1] + [p[|p| - 1] + [last]]
  }

  /** `parts.join(d)` */
  function Join(parts: seq<string>, d: char): string
  {
    if parts == [] then []
    else if |parts| == 1 then parts[0]
    else Join(parts[..|parts| - 1], d) + [d] + parts[|parts| - 1]
  }

  /** Splitting and joining again gives the string back. */
  lemma {:induction false} JoinSplit(s: string, d: char)
    ensures Join(Split(s, d), d) == s
  {
    if s != [] {
      var init, last := s[..|s| - 1], s[|s| - 1];
      var p := Split(init, d);
      JoinSplit(init, d);
      assert s == init + [last];
      if last == d {
        JoinAppendEmpty(p, d);
      } else {
        JoinExtendLast(p, d, last);
      }
    }
  }

  lemma JoinAppendEmpty(p: seq<string>, d: char)
    requires |p| >= 1
    ensures Join(p + [[]], d) == Join(p, d) + [d]
  {
    var q := p + [[]];
    assert q[..|q| - 1] == p && q[|q| - 1] == [];
  }

  lemma JoinExtendLast(p: seq<string>, d: char, x: char)
    requires |p| >= 1
    ensures Join(p[..|p| - 1] + [p[|p| - 1] + [x]], d) == Join(p, d) + [x]
  {
    var q := p[..|p| - 1] + [p[|p| - 1] + [x]];
    assert |q| == |p|;
    if |p| > 1 {
      assert q[..|q| - 1] == p[..|p| - 1] && q[|q| - 1] == p[|p| - 1] + [x];
    }
  }

  lemma {:induction false} SplitNoDelimiter(s: string, d: char)
    requires d !in s
    ensures Split(s, d) == [s]
  {
    if s != [] {
      SplitNoDelimiter(s[..|s| - 1], d);
      assert s == s[..|s| - 1] + [s[|s| - 1]];
    }
  }

  /** Splitting at the last delimiter: everything before it, then the final part. */
  lemma {:induction false} SplitLastDelimiter(s: string, d: char, i: int)
    requires 0 <= i < |s| && s[i] == d && d !in s[i + 1..]
    ensures Split(s, d) == Split(s[..i], d) + [s[i + 1..]]
    decreases |s|
  {
    var init, last := s[..|s| - 1], s[|s| - 1];
    if i == |s| - 1 {
      assert init == s[..i];
      assert s[i + 1..] == [];
    } else {
      assert init[..i] == s[..i] && init[i + 1..] == s[i + 1..|s| - 1];
      assert last == s[i + 1..][|s| - i - 2];
      assert last != d;
      SplitLastDelimiter(init, d, i);
      var p := Split(init, d);
      assert p[..|p| - 1] == Split(s[..i], d) && p[|p| - 1] == s[i + 1..|s| - 1];
      assert Split(s, d) == p[..|p| - 1] + [p[|p| - 1] + [last]];
      assert s[i + 1..] == s[i + 1..|s| - 1] + [last];
    }
  }

  /** Dropping the last part of a split and joining the rest cuts the string at its last delimiter. */
  lemma DropLastPart(s: string, d: char)
    ensures d !in s ==> Split(s, d) == [s]
    ensures forall i :: 0 <= i < |s| && s[i] == d && d !in s[i + 1..] ==>
      |Split(s, d)| > 1 && Join(Split(s, d)[..|Split(s, d)| - 1], d) == s[..i]
  {
    if d !in s {
      SplitNoDelimiter(s, d);
    }
    forall i | 0 <= i < |s| && s[i] == d && d !in s[i + 1..]
      ensures |Split(s, d)| > 1 && Join(Split(s, d)[..|Split(s, d)| - 1], d) == s[..i]
    {
      SplitLastDelimiter(s, d, i);
      var parts := Split(s, d);
      assert parts[..|parts| - 1] == Split(s[..i], d);
      JoinSplit(s[..i], d);
    }
  }

  /** The label of a source: its title without the last `.`-separated part, or the whole title. */
  function Label(title: string): (l: string)
    // a title with a `.` loses everything from its last `.` on; one without keeps it all
    ensures '.' !in title ==> l == title
    ensures forall i :: 0 <= i < |title| && title[i] == '.' && '.' !in title[i + 1..] ==> l == title[..i]
  {
    DropLastPart(title, '.');
    var titleParts := Split(title, '.');
    if |titleParts| > 1 then Join(titleParts[..|titleParts| - 1], '.') else title
  }

  /**
   * The segment for chunk index `ind`: the chunk must exist and have `web`,
   * and its uri must resolve to a non-empty url.
   */
  function SegmentFor(ind: int, chunks: seq<GroundingChunk>, urls: map<string, string>): Option<CitationSegment>
  {
    if 0 <= ind < |chunks| && chunks[ind].web.Some?
       && chunks[ind].web.value.uri in urls && urls[chunks[ind].web.value.uri] != ""
    then
      var web := chunks[ind].web.value;
      Some(CitationSegment(Label(web.title), urls[web.uri], web.uri))
    else None
  }

  /** A support's segments, in `grounding_chunk_indices` order. */
  function Segments(indices: seq<int>, chunks: seq<GroundingChunk>, urls: map<string, string>): seq<CitationSegment>
  {
    if indices == [] then []
    else
      var init, last := indices[..|indices| - 1], indices[|indices| - 1];
      Segments(init, chunks, urls) + (match SegmentFor(last, chunks, urls) case Some(seg) => [seg] case None => [])
  }

  /**
   * Every segment links a resolved, non-empty url, and comes from an indexed
   * chunk with `web` whose uri is the segment's value and whose title gives its label.
   */
  lemma {:induction false} SegmentsResolved(indices: seq<int>, chunks: seq<GroundingChunk>, urls: map<string, string>)
    ensures |Segments(indices, chunks, urls)| <= |indices|
    ensures forall seg :: seg in Segments(indices, chunks, urls) ==>
      seg.value in urls && seg.shortUrl == urls[seg.value] && seg.shortUrl != ""
    ensures forall seg :: seg in Segments(indices, chunks, urls) ==>
      (exists ind :: ind in indices && 0 <= ind < |chunks| && chunks[ind].web.Some?
        && chunks[ind].web.value.uri == seg.value && seg.linkLabel == Label(chunks[ind].web.value.title))
  {
    if indices != [] {
      var init, last := indices[..|indices| - 1], indices[|indices| - 1];
      SegmentsResolved(init, chunks, urls);
      assert forall ind :: ind in init ==> ind in indices;
      assert last in indices;
    }
  }

  /**
   * `Segments` is a filter over the chunk indices: it keeps their order, and
   * a list split in two is handled part by part.
   */
  lemma {:induction false} SegmentsAppend(a: seq<int>, b: seq<int>, chunks: seq<GroundingChunk>, urls: map<string, string>)
    ensures Segments(a + b, chunks, urls) == Segments(a, chunks, urls) + Segments(b, chunks, urls)
    decreases |b|
  {
    if b == [] {
      assert a + b == a;
    } else {
      var init, last := b[..|b| - 1], b[|b| - 1];
      assert (a + b)[..|a + b| - 1] == a + init && (a + b)[|a + b| - 1] == last;
      SegmentsAppend(a, init, chunks, urls);
      var tail := Segments(b, chunks, urls)[|Segments(init, chunks, urls)|..];
      assert Segments(b, chunks, urls) == Segments(init, chunks, urls) + tail;
      assert Segments(a + b, chunks, urls) == Segments(a + init, chunks, urls) + tail;
    }
  }

  /** One chunk index gives its segment exactly when `SegmentFor` resolves it. */
  lemma SegmentsSingle(ind: int, chunks: seq<GroundingChunk>, urls: map<string, string>)
    ensures SegmentFor(ind, chunks, urls).Some? ==> Segments([ind], chunks, urls) == [SegmentFor(ind, chunks, urls).value]
    ensures SegmentFor(ind, chunks, urls).None? ==> Segments([ind], chunks, urls) == []
  {
    assert [ind][..0] == [];
  }

  /** Every chunk index resolves: one segment per index. */
  lemma {:induction false} SegmentsAllResolved(indices: seq<int>, chunks: seq<GroundingChunk>, urls: map<string, string>)
    requires forall k :: 0 <= k < |indices| ==> SegmentFor(indices[k], chunks, urls).Some?
    ensures |Segments(indices, chunks, urls)| == |indices|
    ensures forall k :: 0 <= k < |indices| ==> Segments(indices, chunks, urls)[k] == SegmentFor(indices[k], chunks, urls).value
  {
    if indices != [] {
      var init, last := indices[..|indices| - 1], indices[|indices| - 1];
      SegmentsAllResolved(init, chunks, urls);
      var r := Segments(indices, chunks, urls);
      assert r == Segments(init, chunks, urls) + [SegmentFor(last, chunks, urls).value];
      forall k | 0 <= k < |indices| ensures r[k] == SegmentFor(indices[k], chunks, urls).value {
        if k < |init| {
          assert init[k] == indices[k];
        }
      }
    }
  }

  /** A support yields a citation when it has a segment with an end index. */
  predicate Kept(support: GroundingSupport)
  {
    support.segment.Some? && support.segment.value.endIndex.Some?
  }

  /** The citation of a kept support; a missing start index is 0. */
  function CitationFor(support: GroundingSupport, chunks: Option<seq<GroundingChunk>>, urls: map<string, string>): CitationInfo
    requires Kept(support)
  {
    var segment := support.segment.value;
    CitationInfo(
      segment.startIndex.GetOr(0),
      segment.endIndex.value,
      if support.groundingChunkIndices.Some? && chunks.Some?
      then Segments(support.groundingChunkIndices.value, chunks.value, urls)
      else [])
  }

  /** The kept supports, in order. */
  function KeptSupports(supports: seq<GroundingSupport>): (r: seq<GroundingSupport>)
    ensures forall k :: 0 <= k < |r| ==> Kept(r[k])
    ensures forall x :: x in r <==> x in supports && Kept(x)
  {
    if supports == [] then []
    else
      var init, last := supports[..|supports| - 1], supports[|supports| - 1];
      assert supports == init + [last];
      KeptSupports(init) + (if Kept(last) then [last] else [])
  }

  /** The citations of a list of supports, as the loop builds them. */
  function CitationsFrom(supports: seq<GroundingSupport>, chunks: Option<seq<GroundingChunk>>, urls: map<string, string>): seq<CitationInfo>
  {
    if supports == [] then []
    else
      var init, last := supports[..|supports| - 1], supports[|supports| - 1];
      CitationsFrom(init, chunks, urls) + (if Kept(last) then [CitationFor(last, chunks, urls)] else [])
  }

  /** The supports of the first candidate, when its metadata lists any. */
  function FirstCandidateMetadata(response: Option<GeminiResponse>): Option<GroundingMetadata>
  {
    if response.None? || response.value.candidates.None? || |response.value.candidates.value| == 0 then None
    else
      var candidate := response.value.candidates.value[0];
      if candidate.groundingMetadata.None? || candidate.groundingMetadata.value.groundingSupports.None? then None
      else candidate.groundingMetadata
  }

  /** Exactly one citation per kept support, in support order, even with no segments. */
  lemma {:induction false} OneCitationPerKeptSupport(supports: seq<GroundingSupport>, chunks: Option<seq<GroundingChunk>>, urls: map<string, string>)
    ensures |CitationsFrom(supports, chunks, urls)| == |KeptSupports(supports)|
    ensures forall k :: 0 <= k < |KeptSupports(supports)| ==>
      CitationsFrom(supports, chunks, urls)[k] == CitationFor(KeptSupports(supports)[k], chunks, urls)
  {
    if supports != [] {
      OneCitationPerKeptSupport(supports[..|supports| - 1], chunks, urls);
    }
  }

  /** `getCitations` */
  method GetCitations(response: Option<GeminiResponse>, resolvedUrlsMap: map<string, string>) returns (citations: seq<CitationInfo>)
    ensures FirstCandidateMetadata(response).None? ==> citations == []
    ensures FirstCandidateMetadata(response).Some? ==>
      var metadata := FirstCandidateMetadata(response).value;
      citations == CitationsFrom(metadata.groundingSupports.value, metadata.groundingChunks, resolvedUrlsMap)
  {
    citations := [];
    if response.None? || response.value.candidates.None? {
      return;
    }
    var candidates := response.value.candidates.value;
    if |candidates| == 0 {
      return;
    }
    var candidate := candidates[0];
    if candidate.groundingMetadata.None? || candidate.groundingMetadata.value.groundingSupports.None? {
      return;
    }
    var metadata := candidate.groundingMetadata.value;
    var supports := metadata.groundingSupports.value;
    for j := 0 to |supports|
      invariant citations == CitationsFrom(supports[..j], metadata.groundingChunks, resolvedUrlsMap)
    {
      var support := supports[j];
      assert supports[..j + 1][..j] == supports[..j];
      if support.segment.None? {
        continue;
      }
      var startIndex := support.segment.value.startIndex.GetOr(0);
      if support.segment.value.endIndex.None? {
        continue;
      }
      var segments: seq<CitationSegment> := [];
      if support.groundingChunkIndices.Some? && metadata.groundingChunks.Some? {
        var indices := support.groundingChunkIndices.value;
        var chunks := metadata.groundingChunks.value;
        for m := 0 to |indices|
          invariant segments == Segments(indices[..m], chunks, resolvedUrlsMap)
        {
          var ind := indices[m];
          assert indices[..m + 1][..m] == indices[..m];
          if !(0 <= ind < |chunks|) || chunks[ind].web.None? {
            continue;
          }
          var web := chunks[ind].web.value;
          if web.uri in resolvedUrlsMap && resolvedUrlsMap[web.uri] != "" {
            segments := segments + [CitationSegment(Label(web.title), resolvedUrlsMap[web.uri], web.uri)];
          }
        }
        assert indices[..|indices|] == indices;
      }
      citations := citations + [CitationInfo(startIndex, support.segment.value.endIndex.value, segments)];
    }
    assert supports[..|supports|] == supports;
  }

  /** Only the first candidate is consulted. */
  lemma OnlyFirstCandidate(first: Candidate, rest: seq<Candidate>)
    ensures FirstCandidateMetadata(Some(GeminiResponse(Some([first] + rest))))
         == FirstCandidateMetadata(Some(GeminiResponse(Some([first]))))
  {
  }
}
