/** The question-answering side (src/qa.py): `retrieve` turns the positions
    the vector search returns into a short, ranked list of passages, and
    `answer` builds a prompt from them or apologises when none is left.

    The query embedding and the FAISS search are one oracle: `positions` is
    the row of labels `index.search` returns for the query (-1 for an empty
    slot). The CrossEncoder is the oracle `rerank(query, text)`, the language
    model the oracle `llm(prompt)`. */
module Qa {
  import opened Ingest
  import opened Text
  import Ranking

  datatype Option<T> = None | Some(value: T)

  /** One entry of `retrieve`'s result. */
  datatype Hit = Hit(rank: nat, source: string, repType: string, score: real, text: string)

  /** A candidate together with its rerank score. */
  type Scored = (Meta, real)

  /** Search labels are -1 for an empty slot or a stored vector's position. */
  predicate Labels(positions: seq<int>) {
    forall k :: 0 <= k < |positions| ==> positions[k] >= -1
  }

  /** The `docs` entries at the search positions that are not -1 and lie
      below len(docs), in search order, repeats kept. */
  function Candidates(docs: seq<Meta>, positions: seq<int>): (c: seq<Meta>)
    requires Labels(positions)
    ensures |c| <= |positions|
  {
    if positions == [] then []
    else
      var p := positions[|positions| - 1];
      Candidates(docs, positions[..|positions| - 1])
        + (if p != -1 && p < |docs| then [docs[p]] else [])
  }

  /** Some search position that lies inside `docs` names m. */
  predicate Named(docs: seq<Meta>, positions: seq<int>, m: Meta) {
    exists k :: 0 <= k < |positions| && 0 <= positions[k] < |docs| && docs[positions[k]] == m
  }

  /** A doc is a candidate exactly when some search position names it. */
  lemma {:induction false} CandidatesMembers(docs: seq<Meta>, positions: seq<int>)
    requires Labels(positions)
    ensures forall m :: m in Candidates(docs, positions) <==> Named(docs, positions, m)
  {
    if positions != [] {
      var n := |positions| - 1;
      var init, p := positions[..n], positions[n];
      CandidatesMembers(docs, init);
      var tail := if p != -1 && p < |docs| then [docs[p]] else [];
      assert Candidates(docs, positions) == Candidates(docs, init) + tail;
      forall m ensures Named(docs, positions, m) <==> Named(docs, init, m) || m in tail {
        NamedSnoc(docs, positions, m);
      }
    }
  }

  /** The positions but the last name m, or the last one does. */
  lemma NamedSnoc(docs: seq<Meta>, positions: seq<int>, m: Meta)
    requires positions != []
    ensures var n := |positions| - 1;
      Named(docs, positions, m)
      <==> Named(docs, positions[..n], m) || (0 <= positions[n] < |docs| && docs[positions[n]] == m)
  {
    var n := |positions| - 1;
    if Named(docs, positions, m) {
      var k :| 0 <= k < |positions| && 0 <= positions[k] < |docs| && docs[positions[k]] == m;
      if k < n {
        assert positions[..n][k] == positions[k];
      }
    }
    if Named(docs, positions[..n], m) {
      var k :| 0 <= k < n && 0 <= positions[..n][k] < |docs| && docs[positions[..n][k]] == m;
      assert positions[k] == positions[..n][k];
    }
  }

  /** `reranker.predict` on the (query, text) pairs of the candidates. */
  function Scores(query: string, cands: seq<Meta>, rerank: (string, string) -> real): (scores: seq<real>)
    ensures |scores| == |cands|
    ensures forall i :: 0 <= i < |cands| ==> scores[i] == rerank(query, cands[i].text)
  {
    seq(|cands|, i requires 0 <= i < |cands| => rerank(query, cands[i].text))
  }

  /** `sorted(zip(candidates, scores), key=score, reverse=True)`: the
      candidates with their scores in Ranking.RankOrder, which lists scores
      from high to low and equal scores in search order. */
  function Ranked(query: string, cands: seq<Meta>, rerank: (string, string) -> real): (r: seq<Scored>)
    ensures |r| == |cands|
    ensures Descending(r)
    ensures forall k :: 0 <= k < |r| ==> r[k].0 in cands && r[k].1 == rerank(query, r[k].0.text)
    ensures exists o :: StableOrder(Scores(query, cands, rerank), o)
                        && r == Arrange(cands, Scores(query, cands, rerank), o)
  {
    var scores := Scores(query, cands, rerank);
    var o := Ranking.RankOrder(scores);
    assert Ranking.Ordered(scores, o);
    assert StableOrder(scores, o);
    Arrange(cands, scores, o)
  }

  /** o lists every candidate position exactly once (Ordered positions are
      distinct), higher scores first and equal scores in search order. */
  predicate StableOrder(scores: seq<real>, o: seq<nat>) {
    && |o| == |scores| && Ranking.InRange(o, |scores|) && Ranking.Ordered(scores, o)
    && (forall i :: 0 <= i < |scores| ==> i in o)
  }

  /** The candidates at positions o, in that order, each with its score. */
  function Arrange(cands: seq<Meta>, scores: seq<real>, o: seq<nat>): (r: seq<Scored>)
    requires |scores| == |cands| && Ranking.InRange(o, |cands|)
    ensures |r| == |o|
    ensures forall k :: 0 <= k < |o| ==> r[k] == (cands[o[k]], scores[o[k]])
  {
    seq(|o|, k requires 0 <= k < |o| => (cands[o[k]], scores[o[k]]))
  }

  /** Sorting loses no candidate: each one is ranked with its own score. */
  lemma RankedCovers(query: string, cands: seq<Meta>, rerank: (string, string) -> real, i: nat)
    requires i < |cands|
    ensures (cands[i], rerank(query, cands[i].text)) in Ranked(query, cands, rerank)
  {
    var scores := Scores(query, cands, rerank);
    var o := Ranking.RankOrder(scores);
    assert i in o;
    var k :| 0 <= k < |o| && o[k] == i;
    assert Ranked(query, cands, rerank)[k] == (cands[i], scores[i]);
  }

  /** The entries whose score is not below the threshold, in order. */
  function Passing(s: seq<Scored>, threshold: real): (r: seq<Scored>)
    ensures |r| <= |s|
    ensures forall x :: x in r ==> x in s && x.1 >= threshold
  {
    if s == [] then []
    else
      var last := s[|s| - 1];
      var init := Passing(s[..|s| - 1], threshold);
      assert forall x :: x in init ==> x in s;
      init + (if last.1 >= threshold then [last] else [])
  }

  /** Nothing that passes the threshold is dropped. */
  lemma {:induction false} PassingKeeps(s: seq<Scored>, threshold: real, x: Scored)
    requires x in s && x.1 >= threshold
    ensures x in Passing(s, threshold)
  {
    var n := |s| - 1;
    if s[n] != x {
      var i :| 0 <= i < |s| && s[i] == x;
      assert s[..n][i] == x;
      PassingKeeps(s[..n], threshold, x);
    }
  }

  /** The first n entries (none when n <= 0). */
  function Take<T>(s: seq<T>, n: int): (r: seq<T>)
    ensures |r| == if n <= 0 then 0 else if |s| <= n then |s| else n
    ensures forall j :: 0 <= j < |r| ==> r[j] == s[j]
  {
    if n <= 0 then [] else if |s| <= n then s else s[..n]
  }

  /** Numbering the selected entries 1, 2, ... in order. */
  function Hits(sel: seq<Scored>): (r: seq<Hit>)
    ensures |r| == |sel|
    ensures forall j :: 0 <= j < |sel| ==>
      r[j] == Hit(j + 1, sel[j].0.source, sel[j].0.repType, sel[j].1, sel[j].0.text)
  {
    seq(|sel|, j requires 0 <= j < |sel| =>
      Hit(j + 1, sel[j].0.source, sel[j].0.repType, sel[j].1, sel[j].0.text))
  }

  /** What `retrieve` returns: nothing without candidates; otherwise the first
      topN of the reranked candidates that pass the threshold, numbered. */
  function Selection(docs: seq<Meta>, positions: seq<int>, query: string,
                     rerank: (string, string) -> real, topN: int, threshold: real): (r: seq<Hit>)
    requires Labels(positions)
    ensures Candidates(docs, positions) == [] ==> r == []
    ensures |r| <= |Candidates(docs, positions)|
    ensures |r| <= (if topN > 0 then topN else 0)
  {
    var cands := Candidates(docs, positions);
    if cands == [] then []
    else Hits(Take(Passing(Ranked(query, cands, rerank), threshold), topN))
  }

  /** Passing keeps the order of the entries it keeps. */
  lemma {:induction false} PassingAppend(a: seq<Scored>, b: seq<Scored>, threshold: real)
    ensures Passing(a + b, threshold) == Passing(a, threshold) + Passing(b, threshold)
  {
    if b != [] {
      var n := |b| - 1;
      assert (a + b)[..|a + b| - 1] == a + b[..n];
      assert (a + b)[|a + b| - 1] == b[n];
      PassingAppend(a, b[..n], threshold);
    } else {
      assert a + b == a;
    }
  }

  /** Filtering a list sorted by descending score leaves it sorted. */
  lemma {:induction false} PassingSorted(s: seq<Scored>, threshold: real)
    requires Descending(s)
    ensures Descending(Passing(s, threshold))
  {
    if s != [] {
      var n := |s| - 1;
      var init := s[..n];
      PassingSorted(init, threshold);
      var p := Passing(init, threshold);
      assert forall i :: 0 <= i < |init| ==> init[i] == s[i];
      PassingAbove(init, threshold, s[n].1);
      var r := Passing(s, threshold);
      assert r == p + (if s[n].1 >= threshold then [s[n]] else []);
      forall j, k | 0 <= j < k < |r| ensures r[j].1 >= r[k].1 {
        if k < |p| {
          assert r[j] == p[j] && r[k] == p[k];
        } else {
          assert r[j] == p[j] && r[k] == s[n];
        }
      }
    }
  }

  predicate Descending(s: seq<Scored>) {
    forall j, k :: 0 <= j < k < |s| ==> s[j].1 >= s[k].1
  }

  /** A lower bound on the scores of s bounds the scores that pass. */
  lemma PassingAbove(s: seq<Scored>, threshold: real, lo: real)
    requires forall i :: 0 <= i < |s| ==> s[i].1 >= lo
    ensures forall j :: 0 <= j < |Passing(s, threshold)| ==> Passing(s, threshold)[j].1 >= lo
  {
    var p := Passing(s, threshold);
    forall j | 0 <= j < |p| ensures p[j].1 >= lo {
      assert p[j] in p;
      var i :| 0 <= i < |s| && s[i] == p[j];
    }
  }

  /** What `retrieve` promises its caller: ranks 1..n in order, every score
      at or above the threshold, no more than rerank_top_n results, scores
      never increasing, each result a candidate with its own rerank score,
      no candidate position twice and equal scores in search order. */
  lemma SelectionProperties(docs: seq<Meta>, positions: seq<int>, query: string,
                            rerank: (string, string) -> real, topN: int, threshold: real)
    requires Labels(positions)
    ensures var r := Selection(docs, positions, query, rerank, topN, threshold);
      && (forall j :: 0 <= j < |r| ==> r[j].rank == j + 1)
      && (forall j :: 0 <= j < |r| ==> r[j].score >= threshold)
      && |r| <= (if topN > 0 then topN else 0)
      && (forall j, k :: 0 <= j < k < |r| ==> r[j].score >= r[k].score)
      && (forall j :: 0 <= j < |r| ==> FromCandidate(r[j], query, Candidates(docs, positions), rerank))
      && (exists ps :: PickedInOrder(r, Candidates(docs, positions), Scores(query, Candidates(docs, positions), rerank), ps))
  {
    SelectionStable(docs, positions, query, rerank, topN, threshold);
    var cands := Candidates(docs, positions);
    if cands != [] {
      var ranked := Ranked(query, cands, rerank);
      var passing := Passing(ranked, threshold);
      PassingSorted(ranked, threshold);
      SelectedArePassing(passing, topN, threshold);
      SelectedAreCandidates(query, cands, rerank, passing, topN);
    }
  }

  /** Numbering a prefix of a filtered, sorted list keeps its order, its
      threshold and the cap. */
  lemma SelectedArePassing(passing: seq<Scored>, topN: int, threshold: real)
    requires forall x :: x in passing ==> x.1 >= threshold
    requires Descending(passing)
    ensures var r := Hits(Take(passing, topN));
      && (forall j :: 0 <= j < |r| ==> r[j].rank == j + 1)
      && (forall j :: 0 <= j < |r| ==> r[j].score >= threshold)
      && |r| <= (if topN > 0 then topN else 0)
      && (forall j, k :: 0 <= j < k < |r| ==> r[j].score >= r[k].score)
  {
    var sel := Take(passing, topN);
    forall j | 0 <= j < |sel| ensures sel[j].1 >= threshold {
      assert sel[j] == passing[j] && passing[j] in passing;
    }
  }

  /** A result carries the source, type and text of some candidate, and that
      candidate's rerank score. */
  predicate FromCandidate(h: Hit, query: string, cands: seq<Meta>, rerank: (string, string) -> real) {
    exists m :: m in cands && h.source == m.source && h.repType == m.repType && h.text == m.text
      && h.score == rerank(query, m.text)
  }

  /** Every numbered entry is a candidate with its own rerank score. */
  lemma SelectedAreCandidates(query: string, cands: seq<Meta>, rerank: (string, string) -> real,
                              passing: seq<Scored>, topN: int)
    requires forall x :: x in passing ==> x.0 in cands && x.1 == rerank(query, x.0.text)
    ensures forall j :: 0 <= j < |Take(passing, topN)| ==>
      FromCandidate(Hits(Take(passing, topN))[j], query, cands, rerank)
  {
    var sel := Take(passing, topN);
    forall j | 0 <= j < |sel|
      ensures FromCandidate(Hits(sel)[j], query, cands, rerank)
    {
      assert sel[j] == passing[j] && passing[j] in passing;
      var m := sel[j].0;
      assert Hits(sel)[j] == Hit(j + 1, m.source, m.repType, rerank(query, m.text), m.text);
    }
  }

  /** r is numbered from the candidates at positions ps, each with its
      score; ps is Ordered, so the positions are distinct, the scores never
      increase and equal scores stay in search order. */
  predicate PickedInOrder(r: seq<Hit>, cands: seq<Meta>, scores: seq<real>, ps: seq<nat>) {
    && |scores| == |cands| && |ps| == |r| && Ranking.InRange(ps, |cands|) && Ranking.Ordered(scores, ps)
    && (forall j :: 0 <= j < |r| ==>
          r[j] == Hit(j + 1, cands[ps[j]].source, cands[ps[j]].repType, scores[ps[j]], cands[ps[j]].text))
  }

  /** `retrieve` keeps the sort's order: its results are distinct candidates,
      by descending score, equal scores in search order. */
  lemma SelectionStable(docs: seq<Meta>, positions: seq<int>, query: string,
                        rerank: (string, string) -> real, topN: int, threshold: real)
    requires Labels(positions)
    ensures exists ps :: PickedInOrder(Selection(docs, positions, query, rerank, topN, threshold),
                                       Candidates(docs, positions), Scores(query, Candidates(docs, positions), rerank), ps)
  {
    var cands := Candidates(docs, positions);
    var scores := Scores(query, cands, rerank);
    var r := Selection(docs, positions, query, rerank, topN, threshold);
    if cands == [] {
      assert PickedInOrder(r, cands, scores, []);
    } else {
      var ranked := Ranked(query, cands, rerank);
      var o :| StableOrder(scores, o) && ranked == Arrange(cands, scores, o);
      var ps := PassingArranged(cands, scores, o, threshold);
      var q := TakeArranged(cands, scores, ps, topN);
      assert r == Hits(Arrange(cands, scores, q));
      assert PickedInOrder(r, cands, scores, q);
    }
  }

  /** Filtering an arranged list by threshold arranges an Ordered
      subsequence of the positions. */
  lemma {:induction false} PassingArranged(cands: seq<Meta>, scores: seq<real>, o: seq<nat>, threshold: real)
    returns (ps: seq<nat>)
    requires |scores| == |cands| && Ranking.InRange(o, |cands|) && Ranking.Ordered(scores, o)
    ensures Ranking.InRange(ps, |cands|) && Ranking.Ordered(scores, ps)
    ensures forall j :: 0 <= j < |ps| ==> ps[j] in o
    ensures Passing(Arrange(cands, scores, o), threshold) == Arrange(cands, scores, ps)
  {
    if o == [] {
      ps := [];
    } else {
      var n := |o| - 1;
      var init := o[..n];
      var s := Arrange(cands, scores, o);
      assert s[..n] == Arrange(cands, scores, init);
      assert Passing(s, threshold) == Passing(s[..n], threshold) + (if s[n].1 >= threshold then [s[n]] else []);
      assert Ranking.Ordered(scores, init);
      var ps0 := PassingArranged(cands, scores, init, threshold);
      if scores[o[n]] >= threshold {
        ps := ps0 + [o[n]];
        BeforeLast(scores, o, ps0);
        OrderedSnoc(scores, ps0, o[n]);
        ArrangeSnoc(cands, scores, ps0, o[n]);
      } else {
        ps := ps0;
      }
    }
  }

  /** Positions taken from all but the last of an Ordered list come Before
      its last. */
  lemma BeforeLast(scores: seq<real>, o: seq<nat>, ps: seq<nat>)
    requires o != [] && Ranking.InRange(o, |scores|) && Ranking.Ordered(scores, o)
    requires forall j :: 0 <= j < |ps| ==> ps[j] in o[..|o| - 1]
    ensures forall j :: 0 <= j < |ps| ==> Ranking.Before(scores, ps[j], o[|o| - 1])
  {
    var n := |o| - 1;
    forall j | 0 <= j < |ps| ensures Ranking.Before(scores, ps[j], o[n]) {
      var i :| 0 <= i < n && o[..n][i] == ps[j];
      assert o[i] == ps[j];
    }
  }

  /** Appending a position that every earlier one comes Before keeps a
      list Ordered. */
  lemma OrderedSnoc(scores: seq<real>, ps: seq<nat>, x: nat)
    requires x < |scores| && Ranking.InRange(ps, |scores|) && Ranking.Ordered(scores, ps)
    requires forall j :: 0 <= j < |ps| ==> Ranking.Before(scores, ps[j], x)
    ensures Ranking.InRange(ps + [x], |scores|) && Ranking.Ordered(scores, ps + [x])
  {
  }

  lemma ArrangeSnoc(cands: seq<Meta>, scores: seq<real>, ps: seq<nat>, x: nat)
    requires |scores| == |cands| && x < |cands| && Ranking.InRange(ps, |cands|)
    ensures Ranking.InRange(ps + [x], |cands|)
    ensures Arrange(cands, scores, ps + [x]) == Arrange(cands, scores, ps) + [(cands[x], scores[x])]
  {
  }

  /** The first n of an arranged list arrange the first n positions, which
      stay Ordered. */
  lemma TakeArranged(cands: seq<Meta>, scores: seq<real>, ps: seq<nat>, n: int) returns (q: seq<nat>)
    requires |scores| == |cands| && Ranking.InRange(ps, |cands|) && Ranking.Ordered(scores, ps)
    ensures q == Take(ps, n)
    ensures Ranking.InRange(q, |cands|) && Ranking.Ordered(scores, q)
    ensures Take(Arrange(cands, scores, ps), n) == Arrange(cands, scores, q)
  {
    q := Take(ps, n);
  }

  /** Once the first n are held, later entries do not change the first n. */
  lemma TakeFull<T>(a: seq<T>, b: seq<T>, n: int)
    requires n <= |a|
    ensures Take(a + b, n) == Take(a, n)
  {
    if n > 0 {
      assert (a + b)[..n] == a[..n];
    }
  }

  /** Below the cap, one more entry is taken. */
  lemma TakeOneMore<T>(a: seq<T>, x: T, n: int)
    requires |a| < n
    ensures Take(a + [x], n) == a + [x]
  {
  }

  lemma HitsSnoc(sel: seq<Scored>, x: Scored)
    ensures Hits(sel + [x]) == Hits(sel) + [Hit(|sel| + 1, x.0.source, x.0.repType, x.1, x.0.text)]
  {
    assert (sel + [x])[|sel|] == x;
  }

  /** The three ways one step of `retrieve`'s walk over the sorted list
      relates to the prefix it has seen: an entry below the threshold is
      skipped, a full result list stays as it is, and otherwise the entry
      is appended with the next rank. */
  lemma SkipStep(ranked: seq<Scored>, i: nat, threshold: real)
    requires i < |ranked| && ranked[i].1 < threshold
    ensures Passing(ranked[..i + 1], threshold) == Passing(ranked[..i], threshold)
  {
    assert ranked[..i + 1][..i] == ranked[..i];
  }

  lemma StopStep(ranked: seq<Scored>, i: nat, threshold: real, topN: int)
    requires i <= |ranked|
    requires |Take(Passing(ranked[..i], threshold), topN)| >= topN
    ensures Take(Passing(ranked, threshold), topN) == Take(Passing(ranked[..i], threshold), topN)
  {
    assert ranked == ranked[..i] + ranked[i..];
    PassingAppend(ranked[..i], ranked[i..], threshold);
    TakeFull(Passing(ranked[..i], threshold), Passing(ranked[i..], threshold), topN);
  }

  lemma TakeStep(ranked: seq<Scored>, i: nat, threshold: real, topN: int)
    requires i < |ranked| && ranked[i].1 >= threshold
    requires |Take(Passing(ranked[..i], threshold), topN)| < topN
    ensures var before := Passing(ranked[..i], threshold);
      && Take(before, topN) == before
      && Hits(Take(Passing(ranked[..i + 1], threshold), topN))
         == Hits(before) + [Hit(|before| + 1, ranked[i].0.source, ranked[i].0.repType, ranked[i].1, ranked[i].0.text)]
  {
    var before := Passing(ranked[..i], threshold);
    assert ranked[..i + 1][..i] == ranked[..i];
    assert Passing(ranked[..i + 1], threshold) == before + [ranked[i]];
    TakeOneMore(before, ranked[i], topN);
    HitsSnoc(before, ranked[i]);
  }

  /** The walk at the end of `retrieve`: over the sorted list, skip an entry
      below the threshold, stop once topN results are held, and otherwise
      append the entry with the next rank. */
  method Walk(ranked: seq<Scored>, topN: int, threshold: real) returns (results: seq<Hit>)
    ensures results == Hits(Take(Passing(ranked, threshold), topN))
  {
    results := [];
    for i := 0 to |ranked|
      invariant results == Hits(Take(Passing(ranked[..i], threshold), topN))
    {
      var entry := ranked[i];
      if entry.1 < threshold {
        SkipStep(ranked, i, threshold);
        continue;
      }
      if |results| >= topN {
        StopStep(ranked, i, threshold, topN);
        break;
      }
      TakeStep(ranked, i, threshold, topN);
      results := results + [Hit(|results| + 1, entry.0.source, entry.0.repType, entry.1, entry.0.text)];
    }
    assert ranked[..|ranked|] == ranked;
  }

  /** The fixed reply of `answer` when no passage passes the threshold. */
  const Apology: string :=
    "Xin lỗi, tôi không tìm thấy thông tin liên quan trong tài liệu của bạn (Điểm tin cậy quá thấp)."

  /** `make_prompt`'s default role. */
  const DefaultRole: string := "Chuyên gia nông nghiệp"

  /** One numbered context passage of a prompt. */
  datatype Entry = Entry(number: nat, source: string, text: string)

  /** The content of a prompt: the role, the question and the numbered
      passages; the fixed instruction wording around them is not modelled. */
  datatype Prompt = Prompt(role: string, query: string, entries: seq<Entry>)

  /** `make_prompt`: no prompt without passages; otherwise passage i + 1 is
      result i's source and its text on one line, stripped. */
  function MakePrompt(query: string, retrieved: seq<Hit>, role: string): (p: Option<Prompt>)
    ensures p.None? <==> retrieved == []
    ensures p.Some? ==>
      && p.value.role == role && p.value.query == query
      && |p.value.entries| == |retrieved|
      && (forall i :: 0 <= i < |retrieved| ==>
           && p.value.entries[i].number == i + 1
           && p.value.entries[i].source == retrieved[i].source
           && p.value.entries[i].text == CleanText(retrieved[i].text))
  {
    if retrieved == [] then None
    else Some(Prompt(role, query, seq(|retrieved|, i requires 0 <= i < |retrieved| =>
      Entry(i + 1, retrieved[i].source, CleanText(retrieved[i].text)))))
  }

  /** The loaded search state of the QA module: the vector index and the
      `docs` list, entry i describing vector i. */
  class QaStore {
    var index: seq<Vec>
    var docs: seq<Meta>

    /** Start-up with the index and `docs` read from disk. */
    constructor (loadedIndex: seq<Vec>, loadedDocs: seq<Meta>)
      ensures index == loadedIndex && docs == loadedDocs
    {
      index := loadedIndex;
      docs := loadedDocs;
    }

    /** `retrieve`: gathers the candidates in a loop, sorts them by rerank
        score, then walks the sorted list skipping entries below the
        threshold and stopping once topN results are held. */
    method Retrieve(query: string, positions: seq<int>, rerank: (string, string) -> real,
                    topN: int, threshold: real) returns (results: seq<Hit>)
      requires Labels(positions)
      ensures results == Selection(docs, positions, query, rerank, topN, threshold)
    {
      var cands: seq<Meta> := [];
      for i := 0 to |positions|
        invariant cands == Candidates(docs, positions[..i])
      {
        assert positions[..i + 1][..i] == positions[..i];
        var idx := positions[i];
        if idx != -1 && idx < |docs| {
          cands := cands + [docs[idx]];
        }
      }
      assert positions[..|positions|] == positions;
      if |cands| == 0 {
        return [];
      }

      // reranker.predict and the sort
      var ranked := Ranked(query, cands, rerank);
      results := Walk(ranked, topN, threshold);
    }

    /** `answer` with its fixed settings (top_k 30, rerank_top_n 5,
        threshold 0.0): the apology when nothing passes, otherwise the
        model's reply to the prompt. */
    method Answer(query: string, positions: seq<int>, rerank: (string, string) -> real,
                  llm: Prompt -> string) returns (reply: string)
      requires Labels(positions)
      ensures var sel := Selection(docs, positions, query, rerank, 5, 0.0);
        && (sel == [] ==> reply == Apology)
        && (sel != [] ==> reply == llm(MakePrompt(query, sel, DefaultRole).value))
    {
      var retrieved := Retrieve(query, positions, rerank, 5, 0.0);
      var prompt := MakePrompt(query, retrieved, DefaultRole);
      if prompt.None? {
        return Apology;
      }
      return llm(prompt.value);
    }
  }
}
