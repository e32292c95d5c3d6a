/**
 * Context selection for one query (`RAG_rm` in CHAT.py): search, drop blank
 * documents and documents whose similarity to the query is below 0.7, pack
 * the rest in retrieval order under a character budget, join them with a
 * blank line, and fall back to a fixed sentinel when nothing is kept.
 *
 * The search backend and the embedding similarity are parameters: the search
 * is a function from (query, k) to a result that may be a failure, and the
 * similarity is a function from (query, stripped content) to a real number.
 */
module Retrieval {
  import opened Wrappers
  import opened Text

  /** The context used when nothing can be retrieved or kept. */
  const Sentinel: string := "No relevant documents found."
  /** Documents scoring below this are dropped. */
  const SimilarityThreshold: real := 0.7
  /** Separator between kept parts. */
  const PartSeparator: string := "\n\n"
  /** Default number of documents requested from search. */
  const DefaultResultCount: int := 10
  /** Default character budget for the kept parts. */
  const DefaultMaxContextLength: int := 4096

  /** A retrieved document; only its page content matters here. */
  datatype Document = Document(pageContent: Option<string>)

  /** What the search call gives: an exception, or the documents in retrieval order. */
  datatype SearchResult = SearchFailed | Retrieved(docs: seq<Document>)

  /** The hybrid search backend, called with the query and the result count. */
  type SearchBackend = (string, int) -> SearchResult

  /** Cosine similarity of the query's and the content's embeddings. */
  type Similarity = (string, string) -> real

  /** The stripped content of a document; a missing content counts as empty. */
  function Content(d: Document): string
  {
    Strip(d.pageContent.GetOr(""))
  }

  /** The stripped contents of all documents, in retrieval order. */
  function Contents(docs: seq<Document>): (cs: seq<string>)
    ensures |cs| == |docs|
    ensures forall i :: 0 <= i < |docs| ==> cs[i] == Content(docs[i])
  {
    seq(|docs|, i requires 0 <= i < |docs| => Content(docs[i]))
  }

  /** A content survives the filter: it is not blank and its similarity is not below the threshold. */
  predicate Relevant(query: string, content: string, similarity: Similarity) {
    content != "" && !(similarity(query, content) < SimilarityThreshold)
  }

  /** The contents that survive the filter, in retrieval order. */
  function Passing(query: string, docs: seq<Document>, similarity: Similarity): seq<string>
  {
    if docs == [] then []
    else
      var c := Content(docs[0]);
      var rest := Passing(query, docs[1..], similarity);
      if Relevant(query, c, similarity) then [c] + rest else rest
  }

  /**
   * First-fit packing in order: take parts while the running total of their
   * lengths stays within `budget`, and stop at the first part that does not fit.
   */
  function FitPrefix(parts: seq<string>, budget: int): seq<string>
  {
    if parts == [] || |parts[0]| > budget then []
    else [parts[0]] + FitPrefix(parts[1..], budget - |parts[0]|)
  }

  /** The parts `RAG_rm` keeps: filter first, then the first-fit prefix of the survivors. */
  function Selected(query: string, docs: seq<Document>, similarity: Similarity, maxContextLength: int): seq<string> {
    FitPrefix(Passing(query, docs, similarity), maxContextLength)
  }

  /** The context string `RAG_rm` returns for a given search result. */
  function RagContext(query: string, result: SearchResult, similarity: Similarity, maxContextLength: int): string {
    match result
    case SearchFailed => Sentinel
    case Retrieved(docs) =>
      if docs == [] then Sentinel
      else
        var context := Join(Selected(query, docs, similarity, maxContextLength), PartSeparator);
        if context != "" then context else Sentinel
  }

  /** `RAG_rm`: one pass over the retrieved documents that filters and packs at once. */
  method RagRm(query: string, k: int, maxContextLength: int, search: SearchBackend, similarity: Similarity)
    returns (context: string)
    ensures context == RagContext(query, search(query, k), similarity, maxContextLength)
  {
    var result := search(query, k);
    if result.SearchFailed? {
      return Sentinel;
    }
    var docs := result.docs;
    if docs == [] {
      return Sentinel;
    }
    var contextParts: seq<string> := [];
    var totalLength := 0;
    for i := 0 to |docs|
      invariant contextParts == Passing(query, docs[..i], similarity)
      invariant totalLength == TotalLength(contextParts)
      invariant totalLength <= maxContextLength || contextParts == []
    {
      var content := Content(docs[i]);
      PassingSnoc(query, docs, i, similarity);
      if content == "" {
        continue;
      }
      var score := similarity(query, content);
      if score < SimilarityThreshold {
        continue;
      }
      if totalLength + |content| > maxContextLength {
        assert contextParts == Selected(query, docs, similarity, maxContextLength) by {
          PackingStops(query, docs, i, similarity, maxContextLength);
        }
        break;
      }
      TotalLengthAppend(contextParts, content);
      contextParts := contextParts + [content];
      totalLength := totalLength + |content|;
    }
    assert contextParts == Selected(query, docs, similarity, maxContextLength) by {
      assert docs[..|docs|] == docs;
      if contextParts == Passing(query, docs, similarity) {
        FitPrefixAppend(contextParts, [], maxContextLength);
        assert contextParts + [] == contextParts;
      }
    }
    context := Join(contextParts, PartSeparator);
    if context == "" {
      context := Sentinel;
    }
  }

  /** The filter distributes over concatenation of document lists. */
  lemma {:induction false} PassingAppend(query: string, a: seq<Document>, b: seq<Document>, similarity: Similarity)
    ensures Passing(query, a + b, similarity) == Passing(query, a, similarity) + Passing(query, b, similarity)
  {
    if a != [] {
      assert (a + b)[1..] == a[1..] + b;
      PassingAppend(query, a[1..], b, similarity);
    } else {
      assert a + b == b;
    }
  }

  /** Extending the documents seen by one document extends the filtered list by that document's content if it is relevant. */
  lemma PassingSnoc(query: string, docs: seq<Document>, i: nat, similarity: Similarity)
    requires i < |docs|
    ensures var c := Content(docs[i]);
      Passing(query, docs[..i + 1], similarity)
      == Passing(query, docs[..i], similarity) + (if Relevant(query, c, similarity) then [c] else [])
  {
    assert docs[..i + 1] == docs[..i] + [docs[i]];
    PassingAppend(query, docs[..i], [docs[i]], similarity);
    assert [docs[i]][1..] == [];
  }

  /** Parts that fit together are all kept, and packing goes on with what is left of the budget. */
  lemma {:induction false} FitPrefixAppend(p: seq<string>, q: seq<string>, budget: int)
    requires TotalLength(p) <= budget || p == []
    ensures FitPrefix(p + q, budget) == p + FitPrefix(q, budget - TotalLength(p))
  {
    if p == [] {
      assert p + q == q;
    } else {
      assert (p + q)[0] == p[0];
      assert (p + q)[1..] == p[1..] + q;
      FitPrefixAppend(p[1..], q, budget - |p[0]|);
      assert p + FitPrefix(q, budget - TotalLength(p)) == [p[0]] + (p[1..] + FitPrefix(q, budget - TotalLength(p)));
    }
  }

  /**
   * When every relevant document before `i` fits but the relevant document `i`
   * overflows the budget, packing keeps exactly the relevant documents before `i`.
   */
  lemma PackingStops(query: string, docs: seq<Document>, i: nat, similarity: Similarity, maxContextLength: int)
    requires i < |docs| && Relevant(query, Content(docs[i]), similarity)
    requires var before := Passing(query, docs[..i], similarity);
      (TotalLength(before) <= maxContextLength || before == [])
      && TotalLength(before) + |Content(docs[i])| > maxContextLength
    ensures Selected(query, docs, similarity, maxContextLength) == Passing(query, docs[..i], similarity)
  {
    var before := Passing(query, docs[..i], similarity);
    var c := Content(docs[i]);
    var after := Passing(query, docs[i + 1..], similarity);
    assert docs == docs[..i] + ([docs[i]] + docs[i + 1..]);
    PassingAppend(query, [docs[i]], docs[i + 1..], similarity);
    assert [docs[i]][1..] == [];
    PassingAppend(query, docs[..i], [docs[i]] + docs[i + 1..], similarity);
    FitPrefixAppend(before, [c] + after, maxContextLength);
    assert before + [] == before;
  }

  /** A first part that fits is kept, and packing goes on with the rest of the budget. */
  lemma FitPrefixStep(p: string, rest: seq<string>, budget: int)
    requires |p| <= budget
    ensures FitPrefix([p] + rest, budget) == [p] + FitPrefix(rest, budget - |p|)
  {
  }

  /** Appending a part adds its length to the total. */
  lemma {:induction false} TotalLengthAppend(parts: seq<string>, p: string)
    ensures TotalLength(parts + [p]) == TotalLength(parts) + |p|
  {
    if parts != [] {
      assert (parts + [p])[1..] == parts[1..] + [p];
      TotalLengthAppend(parts[1..], p);
    }
  }

  /** `a` is `b` with some elements left out, in the same order. */
  predicate IsSubsequence(a: seq<string>, b: seq<string>) {
    if a == [] then true
    else if b == [] then false
    else (a[0] == b[0] && IsSubsequence(a[1..], b[1..])) || IsSubsequence(a, b[1..])
  }

  /** A prefix of a subsequence is a subsequence. */
  lemma {:induction false} PrefixOfSubsequence(a: seq<string>, b: seq<string>, c: seq<string>)
    requires |a| <= |b| && a == b[..|a|] && IsSubsequence(b, c)
    ensures IsSubsequence(a, c)
    decreases |c|
  {
    if a != [] {
      assert b != [] && c != [];
      if b[0] == c[0] && IsSubsequence(b[1..], c[1..]) {
        PrefixOfSubsequence(a[1..], b[1..], c[1..]);
      } else {
        PrefixOfSubsequence(a, b, c[1..]);
      }
    }
  }

  /** The filter keeps exactly the relevant contents: blank and low-similarity documents never appear. */
  lemma {:induction false} PassingIsFilter(query: string, docs: seq<Document>, similarity: Similarity)
    ensures forall c :: c in Passing(query, docs, similarity) <==> c in Contents(docs) && Relevant(query, c, similarity)
  {
    if docs != [] {
      PassingIsFilter(query, docs[1..], similarity);
      assert Contents(docs) == [Content(docs[0])] + Contents(docs[1..]);
    }
  }

  /** The filter keeps retrieval order: it never re-ranks by similarity. */
  lemma {:induction false} PassingKeepsOrder(query: string, docs: seq<Document>, similarity: Similarity)
    ensures IsSubsequence(Passing(query, docs, similarity), Contents(docs))
  {
    if docs != [] {
      var c := Content(docs[0]);
      var rest := Passing(query, docs[1..], similarity);
      var all := Contents(docs);
      PassingKeepsOrder(query, docs[1..], similarity);
      assert all[1..] == Contents(docs[1..]);
      if Relevant(query, c, similarity) {
        assert ([c] + rest)[1..] == rest;
      } else if rest != [] {
        assert IsSubsequence(rest, all[1..]);
      }
    }
  }

  /**
   * First-fit packing: the result is a prefix of the parts, its total length is
   * within the budget (a negative budget keeps nothing), and when it stops early
   * the next part would have overflowed the budget.
   */
  lemma {:induction false} FitPrefixSpec(parts: seq<string>, budget: int)
    ensures var r := FitPrefix(parts, budget);
      && |r| <= |parts| && r == parts[..|r|]
      && (TotalLength(r) <= budget || (r == [] && budget < 0))
      && (|r| < |parts| ==> TotalLength(r) + |parts[|r|]| > budget)
  {
    if parts != [] && |parts[0]| <= budget {
      var tail := FitPrefix(parts[1..], budget - |parts[0]|);
      FitPrefixSpec(parts[1..], budget - |parts[0]|);
      var r := [parts[0]] + tail;
      assert r[1..] == tail;
      assert parts[..|r|] == [parts[0]] + parts[1..][..|tail|];
    }
  }

  /** No longer prefix fits: first-fit in order packs the longest prefix within the budget. */
  lemma {:induction false} FitPrefixIsLongest(parts: seq<string>, budget: int, n: nat)
    requires n <= |parts| && TotalLength(parts[..n]) <= budget
    ensures n <= |FitPrefix(parts, budget)|
  {
    if n > 0 {
      assert parts[..n][1..] == parts[1..][..n - 1];
      FitPrefixIsLongest(parts[1..], budget - |parts[0]|, n - 1);
    }
  }

  /**
   * What `RAG_rm` keeps: relevant contents of retrieved documents, in retrieval order,
   * within the budget, stopping at the first relevant document that does not fit.
   */
  lemma SelectedParts(query: string, docs: seq<Document>, similarity: Similarity, maxContextLength: int)
    ensures var kept := Selected(query, docs, similarity, maxContextLength);
      var passing := Passing(query, docs, similarity);
      && (forall c :: c in kept ==> c in Contents(docs) && Relevant(query, c, similarity))
      && IsSubsequence(kept, Contents(docs))
      && (kept != [] ==> TotalLength(kept) <= maxContextLength)
      && |kept| <= |passing| && kept == passing[..|kept|]
      && (|kept| < |passing| ==> TotalLength(kept) + |passing[|kept|]| > maxContextLength)
  {
    var passing := Passing(query, docs, similarity);
    var kept := FitPrefix(passing, maxContextLength);
    FitPrefixSpec(passing, maxContextLength);
    PassingIsFilter(query, docs, similarity);
    PassingKeepsOrder(query, docs, similarity);
    PrefixOfSubsequence(kept, passing, Contents(docs));
    forall c | c in kept ensures c in passing {
      var j :| 0 <= j < |kept| && kept[j] == c;
      assert passing[j] == c;
    }
  }

  /** A failed or empty search gives the sentinel. */
  lemma NoDocumentsGiveSentinel(query: string, result: SearchResult, similarity: Similarity, maxContextLength: int)
    requires result.SearchFailed? || result.docs == []
    ensures RagContext(query, result, similarity, maxContextLength) == Sentinel
  {
  }

  /** When nothing is kept (in particular when the first relevant document alone is over budget), the sentinel is returned. */
  lemma NothingKeptGivesSentinel(query: string, docs: seq<Document>, similarity: Similarity, maxContextLength: int)
    requires Selected(query, docs, similarity, maxContextLength) == []
      || (Passing(query, docs, similarity) != [] && |Passing(query, docs, similarity)[0]| > maxContextLength)
    ensures RagContext(query, Retrieved(docs), similarity, maxContextLength) == Sentinel
  {
  }

  /**
   * When something is kept, the context is the kept parts joined by a blank line;
   * the parts fit the budget but the two-character separators are not counted.
   */
  lemma KeptPartsJoined(query: string, docs: seq<Document>, similarity: Similarity, maxContextLength: int)
    requires Selected(query, docs, similarity, maxContextLength) != []
    ensures var kept := Selected(query, docs, similarity, maxContextLength);
      var context := RagContext(query, Retrieved(docs), similarity, maxContextLength);
      && context == Join(kept, PartSeparator)
      && |context| == TotalLength(kept) + 2 * (|kept| - 1)
      && TotalLength(kept) <= maxContextLength
  {
    var kept := Selected(query, docs, similarity, maxContextLength);
    SelectedParts(query, docs, similarity, maxContextLength);
    forall j | 0 <= j < |kept| ensures kept[j] != [] {
      assert kept[j] in kept;
    }
    JoinEmptyIffNoParts(kept, PartSeparator);
  }
}

/** Worked examples of context selection, on concrete documents. */
module RetrievalExamples {
  import opened Wrappers
  import opened Text
  import opened Retrieval

  /** The similarity used by the examples: "A" scores 0.9, "B" 0.5, anything else 0.8. */
  function ExampleSimilarity(query: string, content: string): real {
    if content == "A" then 0.9 else if content == "B" then 0.5 else 0.8
  }

  /** The filter over three documents "A", "B", "C" keeps "A" and "C". */
  lemma ExamplePassingABC()
    ensures Passing("q", [Document(Some("A")), Document(Some("B")), Document(Some("C"))], ExampleSimilarity) == ["A", "C"]
  {
  }

  /** The filter over "aaa", "bbbbbbbbbb", "c" keeps all three. */
  lemma ExamplePassingAllRelevant()
    ensures Passing("q", [Document(Some("aaa")), Document(Some("bbbbbbbbbb")), Document(Some("c"))], ExampleSimilarity)
         == ["aaa", "bbbbbbbbbb", "c"]
  {
  }

  /** The filter over "aaa", "B", "c" drops "B". */
  lemma ExamplePassingMiddleDropped()
    ensures Passing("q", [Document(Some("aaa")), Document(Some("B")), Document(Some("c"))], ExampleSimilarity) == ["aaa", "c"]
  {
  }

  /** A (0.9), B (0.5), C (0.8) with the default budget give "A\n\nC": B is dropped, order is kept. */
  lemma ExampleFilterKeepsOrder()
    ensures RagContext("q", Retrieved([Document(Some("A")), Document(Some("B")), Document(Some("C"))]),
                       ExampleSimilarity, DefaultMaxContextLength) == "A\n\nC"
  {
    ExamplePassingABC();
    FitPrefixStep("A", ["C"], DefaultMaxContextLength);
    FitPrefixStep("C", [], DefaultMaxContextLength - 1);
    assert Join(["A", "C"], PartSeparator) == "A\n\nC";
  }

  /**
   * Budget 5 with "aaa", "bbbbbbbbbb", "c", all relevant: packing stops at the
   * second document, so the later "c", which would fit, is not used.
   */
  lemma ExampleFirstFitStops()
    ensures RagContext("q", Retrieved([Document(Some("aaa")), Document(Some("bbbbbbbbbb")), Document(Some("c"))]),
                       ExampleSimilarity, 5) == "aaa"
  {
    ExamplePassingAllRelevant();
    FitPrefixStep("aaa", ["bbbbbbbbbb", "c"], 5);
  }

  /** Budget 5 with "aaa", "B" scored 0.5 and "c": the irrelevant "B" does not stop packing. */
  lemma ExampleIrrelevantDoesNotStop()
    ensures RagContext("q", Retrieved([Document(Some("aaa")), Document(Some("B")), Document(Some("c"))]),
                       ExampleSimilarity, 5) == "aaa\n\nc"
  {
    ExamplePassingMiddleDropped();
    FitPrefixStep("aaa", ["c"], 5);
    FitPrefixStep("c", [], 2);
    assert Join(["aaa", "c"], PartSeparator) == "aaa\n\nc";
  }
}
