/**
 * Separating byte-identical translated code blocks from the primary checks (scripts/paired-markdown-derivatives.ts).
 */
module Derivatives {
  import opened Wrappers
  import opened Text

  const ZH_SUFFIX := ".zh.md"

  function UnsuffixedSibling(doc: string): Option<string> {
    if EndsWith(doc, ZH_SUFFIX) then Some(doc[..|doc| - |ZH_SUFFIX|] + ".md") else None
  }

  /** A block: its document and its fingerprint. */
  datatype Block<T> = Block(doc: string, fingerprint: string, payload: T)

  /** The blocks of one document, in scan order. */
  function Group<T>(blocks: seq<Block<T>>, doc: string): seq<Block<T>> {
    if blocks == [] then []
    else Group(blocks[..|blocks| - 1], doc) + if blocks[|blocks| - 1].doc == doc then [blocks[|blocks| - 1]] else []
  }

  function Fingerprints<T>(group: seq<Block<T>>): (r: seq<string>)
    ensures |r| == |group| && forall i :: 0 <= i < |group| ==> r[i] == group[i].fingerprint
  {
    seq(|group|, i requires 0 <= i < |group| => group[i].fingerprint)
  }

  /** The document repeats, block for block, the complete sequence of its unsuffixed sibling. */
  predicate IsDerivative<T>(blocks: seq<Block<T>>, doc: string) {
    var sibling := UnsuffixedSibling(doc);
    && sibling.Some? && Group(blocks, sibling.value) != []
    && Fingerprints(Group(blocks, doc)) == Fingerprints(Group(blocks, sibling.value))
  }

  /** The blocks whose documents are, or are not, derivatives, in scan order. */
  function Select<T>(blocks: seq<Block<T>>, docs: set<string>, chosen: bool): seq<Block<T>> {
    if blocks == [] then []
    else
      Select(blocks[..|blocks| - 1], docs, chosen)
      + if (blocks[|blocks| - 1].doc in docs) == chosen then [blocks[|blocks| - 1]] else []
  }

  function Docs<T>(blocks: seq<Block<T>>): set<string> {
    set i | 0 <= i < |blocks| :: blocks[i].doc
  }

  function DerivativeDocs<T>(blocks: seq<Block<T>>): set<string> {
    set doc | doc in Docs(blocks) && IsDerivative(blocks, doc)
  }

  method SameFingerprints<T>(candidates: seq<Block<T>>, originals: seq<Block<T>>) returns (same: bool)
    requires |candidates| == |originals|
    ensures same <==> Fingerprints(candidates) == Fingerprints(originals)
  {
    for i := 0 to |candidates|
      invariant forall k :: 0 <= k < i ==> Fingerprints(candidates)[k] == Fingerprints(originals)[k]
    {
      if candidates[i].fingerprint != originals[i].fingerprint {
        assert Fingerprints(candidates)[i] != Fingerprints(originals)[i];
        return false;
      }
    }
    return true;
  }

  lemma {:induction false} GroupMembers<T>(blocks: seq<Block<T>>, doc: string)
    ensures Group(blocks, doc) != [] <==> doc in Docs(blocks)
    ensures forall k :: 0 <= k < |Group(blocks, doc)| ==> Group(blocks, doc)[k].doc == doc
  {
    if blocks != [] {
      var front := blocks[..|blocks| - 1];
      GroupMembers(front, doc);
      assert Docs(blocks) == Docs(front) + {blocks[|blocks| - 1].doc} by {
        forall d | d in Docs(front) ensures d in Docs(blocks) {
          var i :| 0 <= i < |front| && front[i].doc == d;
          assert blocks[i].doc == d;
        }
      }
    }
  }

  lemma SelectNone<T>(blocks: seq<Block<T>>, docs: set<string>)
    requires blocks == []
    ensures forall chosen :: Select(blocks, docs, chosen) == []
  {}

  lemma SelectLast<T>(front: seq<Block<T>>, last: Block<T>, docs: set<string>, chosen: bool)
    ensures Select(front + [last], docs, chosen) ==
      Select(front, docs, chosen) + if (last.doc in docs) == chosen then [last] else []
    ensures multiset(Select(front + [last], docs, chosen)) ==
            multiset(Select(front, docs, chosen)) + if (last.doc in docs) == chosen then multiset{last} else multiset{}
  {
    assert (front + [last])[..|front|] == front;
  }

  /**
   * An order-preserving split of the input: the derivatives are the blocks of the `.zh.md` documents that repeat the
   * blocks of their sibling.
   */
  method Partition<T>(blocks: seq<Block<T>>) returns (primary: seq<Block<T>>, derivatives: seq<Block<T>>)
    ensures primary == Select(blocks, DerivativeDocs(blocks), false)
    ensures derivatives == Select(blocks, DerivativeDocs(blocks), true)
    ensures InScanOrder(blocks, derivatives, true) && InScanOrder(blocks, primary, false)
  {
    hide Group, Select, UnsuffixedSibling, Fingerprints;
    var byDoc: map<string, seq<Block<T>>> := map[];
    for i := 0 to |blocks|
      invariant byDoc.Keys == Docs(blocks[..i])
      invariant forall doc :: doc in byDoc ==> byDoc[doc] == Group(blocks[..i], doc)
    {
      var block := blocks[i];
      GroupStep(blocks, i);
      byDoc := byDoc[block.doc := (if block.doc in byDoc then byDoc[block.doc] else []) + [block]];
    }
    assert blocks[..|blocks|] == blocks;

    var derivativeDocs: set<string> := {};
    var todo := byDoc.Keys;
    while todo != {}
      invariant todo <= byDoc.Keys
      invariant derivativeDocs == set doc | doc in byDoc.Keys - todo && IsDerivative(blocks, doc)
      decreases todo
    {
      var doc :| doc in todo;
      var derived := false;
      var sibling := UnsuffixedSibling(doc);
      if sibling.Some? && sibling.value in byDoc && |byDoc[sibling.value]| == |byDoc[doc]| {
        derived := SameFingerprints(byDoc[doc], byDoc[sibling.value]);
      }
      if sibling.Some? { GroupMembers(blocks, sibling.value); }
      assert derived <==> IsDerivative(blocks, doc);
      if derived { derivativeDocs := derivativeDocs + {doc}; }
      todo := todo - {doc};
    }
    assert derivativeDocs == DerivativeDocs(blocks);

    primary, derivatives := [], [];
    SelectNone(blocks[..0], derivativeDocs);
    for i := 0 to |blocks|
      invariant primary == Select(blocks[..i], derivativeDocs, false)
      invariant derivatives == Select(blocks[..i], derivativeDocs, true)
    {
      assert blocks[..i + 1] == blocks[..i] + [blocks[i]];
      SelectLast(blocks[..i], blocks[i], derivativeDocs, false);
      SelectLast(blocks[..i], blocks[i], derivativeDocs, true);
      if blocks[i].doc in derivativeDocs {
        derivatives := derivatives + [blocks[i]];
      } else {
        primary := primary + [blocks[i]];
      }
    }
    assert blocks[..|blocks|] == blocks;
    SplitInScanOrder(blocks, true);
    SplitInScanOrder(blocks, false);
  }

  /** The document is the Chinese counterpart of one whose blocks it repeats, all of them and in order. */
  ghost predicate RepeatsSibling<T>(blocks: seq<Block<T>>, doc: string) {
    exists stem: string :: doc == stem + ".zh.md" && Group(blocks, stem + ".md") != []
      && Fingerprints(Group(blocks, doc)) == Fingerprints(Group(blocks, stem + ".md"))
  }

  lemma DerivativeExactly<T>(blocks: seq<Block<T>>, doc: string)
    ensures IsDerivative(blocks, doc) <==> RepeatsSibling(blocks, doc)
  {
    hide Group, Fingerprints;
    if IsDerivative(blocks, doc) {
      var stem := doc[..|doc| - |ZH_SUFFIX|];
      assert doc == stem + ".zh.md";
    }
    if RepeatsSibling(blocks, doc) {
      var stem: string :| doc == stem + ".zh.md" && Group(blocks, stem + ".md") != []
        && Fingerprints(Group(blocks, doc)) == Fingerprints(Group(blocks, stem + ".md"));
      assert doc[|stem|..] == ".zh.md" && doc[..|stem|] == stem;
    }
  }

  /**
   * `part` holds, in scan order, the blocks at the positions `at`: those whose document repeats its sibling, or not.
   */
  ghost predicate PickedAt<T>(blocks: seq<Block<T>>, part: seq<Block<T>>, at: seq<nat>, repeated: bool) {
    && |at| == |part| && (forall i, j :: 0 <= i < j < |at| ==> at[i] < at[j])
    && (forall i :: 0 <= i < |at| ==> at[i] < |blocks| && part[i] == blocks[at[i]])
    && forall k :: 0 <= k < |blocks| ==> (k in at <==> (RepeatsSibling(blocks, blocks[k].doc) <==> repeated))
  }

  ghost predicate InScanOrder<T>(blocks: seq<Block<T>>, part: seq<Block<T>>, repeated: bool) {
    exists at :: PickedAt(blocks, part, at, repeated)
  }

  /** `part` holds the blocks at the positions `at`, in order; these are the blocks of the documents chosen. */
  ghost predicate ChosenAt<T>(blocks: seq<Block<T>>, part: seq<Block<T>>, at: seq<nat>, docs: set<string>, chosen: bool)
  {
    && |at| == |part| && (forall i, j :: 0 <= i < j < |at| ==> at[i] < at[j])
    && (forall i :: 0 <= i < |at| ==> at[i] < |blocks| && part[i] == blocks[at[i]])
    && forall k :: 0 <= k < |blocks| ==> (k in at <==> ((blocks[k].doc in docs) == chosen))
  }

  lemma ChosenPast<T>(blocks: seq<Block<T>>, part: seq<Block<T>>, at: seq<nat>, docs: set<string>, chosen: bool,
                      last: Block<T>)
    requires ChosenAt(blocks, part, at, docs, chosen) && (last.doc in docs) != chosen
    ensures ChosenAt(blocks + [last], part, at, docs, chosen)
  {
    forall k | k in at ensures k < |blocks| {}
    forall k | 0 <= k < |blocks| ensures (blocks + [last])[k] == blocks[k] {}
  }

  lemma ChosenLast<T>(blocks: seq<Block<T>>, part: seq<Block<T>>, at: seq<nat>, docs: set<string>, chosen: bool,
                      last: Block<T>)
    requires ChosenAt(blocks, part, at, docs, chosen) && (last.doc in docs) == chosen
    ensures ChosenAt(blocks + [last], part + [last], at + [|blocks|], docs, chosen)
  {
    var longer, both := blocks + [last], at + [|blocks|];
    forall k | 0 <= k < |longer| ensures k in both <==> ((longer[k].doc in docs) == chosen) {
      assert k in both <==> k in at || k == |blocks|;
      if k < |blocks| { assert longer[k] == blocks[k]; }
    }
  }

  /** The positions of the selected blocks. */
  lemma {:induction false} SelectPositions<T>(blocks: seq<Block<T>>, docs: set<string>, chosen: bool)
    returns (at: seq<nat>)
    ensures ChosenAt(blocks, Select(blocks, docs, chosen), at, docs, chosen)
  {
    if blocks == [] {
      at := [];
    } else {
      hide Select, ChosenAt;
      var front, last := blocks[..|blocks| - 1], blocks[|blocks| - 1];
      at := SelectPositions(front, docs, chosen);
      assert blocks == front + [last];
      SelectLast(front, last, docs, chosen);
      if (last.doc in docs) == chosen {
        ChosenLast(front, Select(front, docs, chosen), at, docs, chosen, last);
        at := at + [|front|];
      } else {
        ChosenPast(front, Select(front, docs, chosen), at, docs, chosen, last);
      }
    }
  }

  lemma SplitInScanOrder<T>(blocks: seq<Block<T>>, repeated: bool)
    ensures InScanOrder(blocks, Select(blocks, DerivativeDocs(blocks), repeated), repeated)
  {
    var at := SelectPositions(blocks, DerivativeDocs(blocks), repeated);
    hide Select, Group, Fingerprints, IsDerivative, RepeatsSibling;
    forall k | 0 <= k < |blocks| ensures k in at <==> (RepeatsSibling(blocks, blocks[k].doc) <==> repeated) {
      DerivativeExactly(blocks, blocks[k].doc);
    }
    assert PickedAt(blocks, Select(blocks, DerivativeDocs(blocks), repeated), at, repeated);
  }

  lemma GroupStep<T>(blocks: seq<Block<T>>, i: nat)
    requires i < |blocks|
    ensures Docs(blocks[..i + 1]) == Docs(blocks[..i]) + {blocks[i].doc}
    ensures forall doc ::
      Group(blocks[..i + 1], doc) == Group(blocks[..i], doc) + if blocks[i].doc == doc then [blocks[i]] else []
    ensures blocks[i].doc !in Docs(blocks[..i]) ==> Group(blocks[..i], blocks[i].doc) == []
  {
    var front, longer := blocks[..i], blocks[..i + 1];
    assert longer[..i] == front && longer[i] == blocks[i];
    forall d | d in Docs(front) ensures d in Docs(longer) {
      var k :| 0 <= k < |front| && front[k].doc == d;
      assert longer[k].doc == d;
    }
    forall d | d in Docs(longer) ensures d in Docs(front) + {blocks[i].doc} {
      var k :| 0 <= k < |longer| && longer[k].doc == d;
      assert k < i ==> front[k].doc == d;
    }
    GroupMembers(front, blocks[i].doc);
  }

  // ---- No check is lost ----

  lemma OneMore<T>(a: multiset<Block<T>>, b: multiset<Block<T>>, x: Block<T>)
    ensures (a + multiset{x}) + b == (a + b) + multiset{x} && a + (b + multiset{x}) == (a + b) + multiset{x}
  {}

  /** The two halves of the split carry every block, none twice. */
  lemma {:induction false} SplitIsComplete<T>(blocks: seq<Block<T>>, docs: set<string>)
    ensures multiset(Select(blocks, docs, false)) + multiset(Select(blocks, docs, true)) == multiset(blocks)
  {
    if blocks != [] {
      var front, last := blocks[..|blocks| - 1], blocks[|blocks| - 1];
      hide Select;
      SplitIsComplete(front, docs);
      assert blocks == front + [last];
      assert multiset(blocks) == multiset(front) + multiset{last};
      SelectLast(front, last, docs, false);
      SelectLast(front, last, docs, true);
      var no, yes := multiset(Select(front, docs, false)), multiset(Select(front, docs, true));
      if last.doc in docs {
        assert multiset(Select(front + [last], docs, false)) == no
          && multiset(Select(front + [last], docs, true)) == yes + multiset{last};
      } else {
        assert multiset(Select(front + [last], docs, false)) == no + multiset{last}
          && multiset(Select(front + [last], docs, true)) == yes;
      }
      OneMore(no, yes, last);
    }
  }

  /** Every derivative document repeats, block for block, a document whose blocks stay primary. */
  lemma {:induction false} DerivativeRepeatsPrimary<T>(blocks: seq<Block<T>>, doc: string) returns (root: string)
    requires doc in DerivativeDocs(blocks)
    ensures root in Docs(blocks) && root !in DerivativeDocs(blocks)
    ensures Fingerprints(Group(blocks, root)) == Fingerprints(Group(blocks, doc))
    decreases |doc|
  {
    var sibling := UnsuffixedSibling(doc).value;
    GroupMembers(blocks, sibling);
    if sibling in DerivativeDocs(blocks) {
      root := DerivativeRepeatsPrimary(blocks, sibling);
    } else {
      root := sibling;
    }
  }

  lemma {:induction false} GroupIsSelected<T>(blocks: seq<Block<T>>, docs: set<string>, chosen: bool, doc: string)
    requires (doc in docs) == chosen
    ensures Group(Select(blocks, docs, chosen), doc) == Group(blocks, doc)
  {
    if blocks != [] {
      var front, last := blocks[..|blocks| - 1], blocks[|blocks| - 1];
      GroupIsSelected(front, docs, chosen, doc);
      var selected := Select(front, docs, chosen);
      var all := Select(blocks, docs, chosen);
      if (last.doc in docs) == chosen {
        assert all == selected + [last];
        assert all[..|all| - 1] == selected && all[|all| - 1] == last;
      } else {
        assert all == selected;
      }
    }
  }

  lemma {:induction false} GroupContains<T>(blocks: seq<Block<T>>, i: nat) returns (k: nat)
    requires i < |blocks|
    ensures k < |Group(blocks, blocks[i].doc)| && Group(blocks, blocks[i].doc)[k] == blocks[i]
    decreases |blocks|
  {
    if i == |blocks| - 1 {
      k := |Group(blocks, blocks[i].doc)| - 1;
    } else {
      k := GroupContains(blocks[..|blocks| - 1], i);
    }
  }

  lemma {:induction false} GroupIn<T>(blocks: seq<Block<T>>, doc: string, k: nat)
    requires k < |Group(blocks, doc)|
    ensures Group(blocks, doc)[k] in blocks
  {
    var front := blocks[..|blocks| - 1];
    if k < |Group(front, doc)| { GroupIn(front, doc, k); }
  }

  /** The fingerprint of every derivative block still occurs on a primary block. */
  lemma NoCheckLost<T>(blocks: seq<Block<T>>, i: nat) returns (kept: Block<T>)
    requires i < |blocks| && blocks[i].doc in DerivativeDocs(blocks)
    ensures kept in Select(blocks, DerivativeDocs(blocks), false) && kept.fingerprint == blocks[i].fingerprint
  {
    var doc := blocks[i].doc;
    var root := DerivativeRepeatsPrimary(blocks, doc);
    var k := GroupContains(blocks, i);
    assert Fingerprints(Group(blocks, doc))[k] == Fingerprints(Group(blocks, root))[k];
    GroupIsSelected(blocks, DerivativeDocs(blocks), false, root);
    kept := Group(blocks, root)[k];
    GroupIn(Select(blocks, DerivativeDocs(blocks), false), root, k);
  }
}
