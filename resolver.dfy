/**
 * Paragraph-aware placeholder resolution: DocTemplateService.replacePlaceholders.
 *
 * The document's w:t text nodes, in document order, are an array of TextNode
 * values. Each node records its enclosing paragraph as an explicit id, in place
 * of the reflective parent walk, or None when no paragraph ancestor is found.
 */
module Resolver {
  import opened Wrappers
  import opened Substitution

  /** Identity of an enclosing w:p element; equal ids mean the same paragraph object. */
  type ParagraphId = nat

  /** One w:t node: its value (None for a null value) and its enclosing paragraph. */
  datatype TextNode = TextNode(value: Option<string>, paragraph: Option<ParagraphId>)

  /** A node's contribution to its paragraph's combined text: a null value adds nothing. */
  function ValueOf(node: TextNode): string {
    ValueText(node.value)
  }

  // ---------------------------------------------------------------------------
  // What resolution does, node by node

  /** The values of paragraph p's nodes among the first n, concatenated in document order. */
  function ParagraphTextUpTo(nodes: seq<TextNode>, p: ParagraphId, n: nat): string
    requires n <= |nodes|
  {
    if n == 0 then ""
    else ParagraphTextUpTo(nodes, p, n - 1) + (if nodes[n - 1].paragraph == Some(p) then ValueOf(nodes[n - 1]) else "")
  }

  /** The logical text of paragraph p: all its nodes' values, in document order. */
  function ParagraphText(nodes: seq<TextNode>, p: ParagraphId): string {
    ParagraphTextUpTo(nodes, p, |nodes|)
  }

  /** No earlier node belongs to node j's paragraph. */
  predicate IsFirstOfParagraph(nodes: seq<TextNode>, j: nat)
    requires j < |nodes|
  {
    forall k :: 0 <= k < j ==> nodes[k].paragraph != nodes[j].paragraph
  }

  /** The resolver writes back only a non-empty text that substitution changes. */
  predicate Rewrites(original: string, metadata: Metadata) {
    original != "" && SubstituteAll(original, metadata) != original
  }

  /**
   * A node without a paragraph is resolved on its own: its value is replaced only
   * when it is non-null, non-empty and changed by substitution.
   */
  function ResolveAlone(node: TextNode, metadata: Metadata): TextNode {
    var original := ValueOf(node);
    if Rewrites(original, metadata) then node.(value := Some(SubstituteAll(original, metadata)))
    else node
  }

  /**
   * What resolution leaves in node j. A node of paragraph p sees p's whole text:
   * if substitution rewrites it, p's first node receives the whole result and
   * every other node of p is set to ""; otherwise the node is left as it was.
   */
  function ResolveNode(nodes: seq<TextNode>, metadata: Metadata, j: nat): TextNode
    requires j < |nodes|
  {
    var node := nodes[j];
    match node.paragraph
    case None => ResolveAlone(node, metadata)
    case Some(p) =>
      var original := ParagraphText(nodes, p);
      if Rewrites(original, metadata) then
        node.(value := Some(if IsFirstOfParagraph(nodes, j) then SubstituteAll(original, metadata) else ""))
      else node
  }

  /** The document after resolution. */
  function Resolve(nodes: seq<TextNode>, metadata: Metadata): (r: seq<TextNode>)
    ensures |r| == |nodes|
    ensures forall j :: 0 <= j < |nodes| ==> r[j].paragraph == nodes[j].paragraph
  {
    seq(|nodes|, j requires 0 <= j < |nodes| => ResolveNode(nodes, metadata, j))
  }

  // ---------------------------------------------------------------------------
  // The grouping the source builds (paraToTexts) and what it holds

  /** Every index of g is a valid position in nodes. */
  predicate InBounds(nodes: seq<TextNode>, g: seq<nat>) {
    forall k :: 0 <= k < |g| ==> g[k] < |nodes|
  }

  /** The indices of g are strictly increasing, so distinct and in document order. */
  predicate Increasing(g: seq<nat>) {
    forall k, l :: 0 <= k < l < |g| ==> g[k] < g[l]
  }

  /** The list paraToTexts holds for paragraph p once the first n nodes have been visited. */
  function GroupUpTo(nodes: seq<TextNode>, p: ParagraphId, n: nat): seq<nat>
    requires n <= |nodes|
  {
    if n == 0 then []
    else if nodes[n - 1].paragraph == Some(p) then GroupUpTo(nodes, p, n - 1) + [n - 1]
    else GroupUpTo(nodes, p, n - 1)
  }

  /** The concatenated values of the nodes at g, in the order of g (the StringBuilder loop). */
  function Combined(nodes: seq<TextNode>, g: seq<nat>): string
    requires InBounds(nodes, g)
  {
    if g == [] then "" else Combined(nodes, g[..|g| - 1]) + ValueOf(nodes[g[|g| - 1]])
  }

  /**
   * A paragraph's list holds exactly the indices of its nodes, each once, in
   * document order.
   */
  lemma {:induction false} GroupUpToIndices(nodes: seq<TextNode>, p: ParagraphId, n: nat)
    requires n <= |nodes|
    ensures var g := GroupUpTo(nodes, p, n);
      && (forall k :: 0 <= k < |g| ==> g[k] < n && nodes[g[k]].paragraph == Some(p))
      && Increasing(g)
      && (forall j :: 0 <= j < n && nodes[j].paragraph == Some(p) ==> j in g)
    decreases n
  {
    if n > 0 {
      GroupUpToIndices(nodes, p, n - 1);
    }
  }

  /** The StringBuilder loop over a paragraph's list yields the paragraph's text. */
  lemma {:induction false} CombinedGroupIsParagraphText(nodes: seq<TextNode>, p: ParagraphId, n: nat)
    requires n <= |nodes|
    ensures InBounds(nodes, GroupUpTo(nodes, p, n))
    ensures Combined(nodes, GroupUpTo(nodes, p, n)) == ParagraphTextUpTo(nodes, p, n)
    decreases n
  {
    GroupUpToIndices(nodes, p, n);
    if n > 0 {
      CombinedGroupIsParagraphText(nodes, p, n - 1);
      var g := GroupUpTo(nodes, p, n);
      if nodes[n - 1].paragraph == Some(p) {
        assert g[..|g| - 1] == GroupUpTo(nodes, p, n - 1);
      }
    }
  }

  /** The head of a paragraph's list is the one node of the paragraph that is first. */
  lemma GroupHeadIsFirst(nodes: seq<TextNode>, p: ParagraphId, j: nat)
    requires j < |nodes| && nodes[j].paragraph == Some(p)
    ensures var g := GroupUpTo(nodes, p, |nodes|);
      g != [] && (j == g[0] <==> IsFirstOfParagraph(nodes, j))
  {
    GroupUpToIndices(nodes, p, |nodes|);
    var g := GroupUpTo(nodes, p, |nodes|);
    assert j in g;
    if j == g[0] {
      assert forall l :: 0 <= l < |g| ==> j <= g[l];
    } else {
      assert g[0] < j;
    }
  }

  /** A paragraph none of whose nodes has been visited yet has an empty list. */
  lemma {:induction false} GroupUpToAbsent(nodes: seq<TextNode>, p: ParagraphId, n: nat)
    requires n <= |nodes|
    requires forall j :: 0 <= j < n ==> nodes[j].paragraph != Some(p)
    ensures GroupUpTo(nodes, p, n) == []
    decreases n
  {
    if n > 0 {
      GroupUpToAbsent(nodes, p, n - 1);
    }
  }

  // ---------------------------------------------------------------------------
  // Frame facts: what resolving a node reads

  /** The nodes agree on every paragraph assignment. */
  predicate SameParagraphs(a: seq<TextNode>, b: seq<TextNode>) {
    |a| == |b| && forall j :: 0 <= j < |a| ==> a[j].paragraph == b[j].paragraph
  }

  /** A paragraph's text reads only the values of that paragraph's nodes. */
  lemma {:induction false} ParagraphTextFrame(a: seq<TextNode>, b: seq<TextNode>, p: ParagraphId, n: nat)
    requires SameParagraphs(a, b) && n <= |a|
    requires forall k :: 0 <= k < |a| && a[k].paragraph == Some(p) ==> a[k].value == b[k].value
    ensures ParagraphTextUpTo(a, p, n) == ParagraphTextUpTo(b, p, n)
    decreases n
  {
    if n > 0 {
      ParagraphTextFrame(a, b, p, n - 1);
    }
  }

  /** The combined text reads only the values at the listed indices. */
  lemma {:induction false} CombinedFrame(a: seq<TextNode>, b: seq<TextNode>, g: seq<nat>)
    requires InBounds(a, g) && InBounds(b, g)
    requires forall k :: 0 <= k < |g| ==> a[g[k]].value == b[g[k]].value
    ensures Combined(a, g) == Combined(b, g)
    decreases |g|
  {
    if g != [] {
      CombinedFrame(a, b, g[..|g| - 1]);
    }
  }

  // ---------------------------------------------------------------------------
  // The in-place algorithm

  /** The StringBuilder loop: the non-null values of the listed nodes, concatenated. */
  method CombineTexts(nodes: array<TextNode>, texts: seq<nat>) returns (combined: string)
    requires InBounds(nodes[..], texts)
    ensures combined == Combined(nodes[..], texts)
  {
    combined := "";
    var t := 0;
    while t < |texts|
      invariant 0 <= t <= |texts|
      invariant combined == Combined(nodes[..], texts[..t])
    {
      var v := nodes[texts[t]].value;
      if v.Some? {
        combined := combined + v.value;
      }
      assert texts[..t + 1][..t] == texts[..t];
      t := t + 1;
    }
    assert texts[..t] == texts;
  }

  /**
   * The write-back loop with its `first` flag: the first listed node receives the
   * whole replaced text, every later listed node is set to "", and no other node
   * changes.
   */
  method WriteBack(nodes: array<TextNode>, texts: seq<nat>, replaced: string)
    requires texts != [] && InBounds(nodes[..], texts) && Increasing(texts)
    modifies nodes
    ensures forall j :: 0 <= j < nodes.Length ==>
      nodes[j] == if j in texts then old(nodes[j]).(value := Some(if j == texts[0] then replaced else ""))
                  else old(nodes[j])
  {
    var first := true;
    var t := 0;
    while t < |texts|
      invariant 0 <= t <= |texts|
      invariant first <==> t == 0
      invariant forall j :: 0 <= j < nodes.Length ==>
        nodes[j] == if j in texts[..t] then old(nodes[j]).(value := Some(if j == texts[0] then replaced else ""))
                    else old(nodes[j])
    {
      var i := texts[t];
      assert i !in texts[..t];
      if first {
        nodes[i] := nodes[i].(value := Some(replaced));
        first := false;
      } else {
        assert i != texts[0];
        nodes[i] := nodes[i].(value := Some(""));
      }
      assert forall j :: j in texts[..t + 1] <==> j in texts[..t] || j == i;
      t := t + 1;
    }
    assert texts[..t] == texts;
  }

  /**
   * One iteration of the loop over paraToTexts: combine the group's values,
   * substitute, and write back only when the combined text is non-empty and
   * changed. `orig` is the document before resolution began; the paragraph's
   * nodes still hold their original values.
   */
  method ResolveGroup(nodes: array<TextNode>, metadata: Metadata, p: ParagraphId, texts: seq<nat>,
                      ghost orig: seq<TextNode>)
    requires SameParagraphs(orig, nodes[..]) && texts == GroupUpTo(orig, p, |orig|)
    requires forall k :: 0 <= k < |orig| && orig[k].paragraph == Some(p) ==> nodes[k] == orig[k]
    modifies nodes
    ensures forall j :: 0 <= j < nodes.Length ==>
      nodes[j] == if orig[j].paragraph == Some(p) then ResolveNode(orig, metadata, j) else old(nodes[j])
  {
    ghost var before := nodes[..];
    GroupUpToIndices(orig, p, |orig|);
    CombinedGroupIsParagraphText(orig, p, |orig|);
    ghost var text := ParagraphText(orig, p);
    forall j | 0 <= j < |orig| && orig[j].paragraph == Some(p)
      ensures j in texts && (j == texts[0] <==> IsFirstOfParagraph(orig, j))
    {
      GroupHeadIsFirst(orig, p, j);
    }
    if texts == [] {
      return;
    }
    var original := CombineTexts(nodes, texts);
    assert original == text by {
      CombinedFrame(orig, before, texts);
    }
    if original == "" {
      return;
    }
    var replacedAll := ReplaceAllPlaceholders(original, metadata);
    if replacedAll != original {
      WriteBack(nodes, texts, replacedAll);
    }
  }

  /**
   * The fallback for a node without a paragraph: its own value is substituted and
   * written back only when non-null, non-empty and changed.
   */
  method ResolveOrphan(nodes: array<TextNode>, i: nat, metadata: Metadata)
    requires i < nodes.Length
    modifies nodes
    ensures nodes[i] == ResolveAlone(old(nodes[i]), metadata)
    ensures forall j :: 0 <= j < nodes.Length && j != i ==> nodes[j] == old(nodes[j])
  {
    var t := nodes[i];
    var value := t.value;
    if value.Some? && value.value != "" {
      var replaced := ReplaceAllPlaceholders(value.value, metadata);
      if replaced != value.value {
        nodes[i] := t.(value := Some(replaced));
      }
    }
  }

  /** The index of paragraph p's first node at or after k, or |nodes| when there is none. */
  function FirstIndexFrom(nodes: seq<TextNode>, p: ParagraphId, k: nat): nat
    requires k <= |nodes|
    decreases |nodes| - k
  {
    if k == |nodes| then |nodes|
    else if nodes[k].paragraph == Some(p) then k
    else FirstIndexFrom(nodes, p, k + 1)
  }

  /** The index of paragraph p's first node, or |nodes| when p has no node. */
  function FirstIndex(nodes: seq<TextNode>, p: ParagraphId): nat {
    FirstIndexFrom(nodes, p, 0)
  }

  /** FirstIndex is where p first occurs: no earlier node belongs to p. */
  lemma {:induction false} FirstIndexFromLeast(nodes: seq<TextNode>, p: ParagraphId, k: nat)
    requires k <= |nodes|
    ensures var f := FirstIndexFrom(nodes, p, k);
      && k <= f <= |nodes|
      && (f < |nodes| ==> nodes[f].paragraph == Some(p))
      && (forall j :: k <= j < f ==> nodes[j].paragraph != Some(p))
    decreases |nodes| - k
  {
    if k < |nodes| && nodes[k].paragraph != Some(p) {
      FirstIndexFromLeast(nodes, p, k + 1);
    }
  }

  /** A node of p with no earlier node of p sits at FirstIndex. */
  lemma FirstIndexAt(nodes: seq<TextNode>, p: ParagraphId, i: nat)
    requires i < |nodes| && nodes[i].paragraph == Some(p)
    requires forall j :: 0 <= j < i ==> nodes[j].paragraph != Some(p)
    ensures FirstIndex(nodes, p) == i
  {
    FirstIndexFromLeast(nodes, p, 0);
  }

  /**
   * The state of the grouping pass after the first i nodes: `order` lists each
   * paragraph met so far once, in first-appearance order, and nothing else, and
   * `groups` maps each of them to the indices of its nodes so far.
   */
  ghost predicate GroupsSoFar(nodes: seq<TextNode>, order: seq<ParagraphId>,
                              groups: map<ParagraphId, seq<nat>>, i: nat)
  {
    && i <= |nodes|
    && (forall p :: p in groups <==> p in order)
    && (forall a, b :: 0 <= a < b < |order| ==> FirstIndex(nodes, order[a]) < FirstIndex(nodes, order[b]))
    && (forall p :: p in order ==> FirstIndex(nodes, p) < i)
    && (forall p :: p in groups ==> groups[p] == GroupUpTo(nodes, p, i))
    && (forall j :: 0 <= j < i && nodes[j].paragraph.Some? ==> nodes[j].paragraph.value in groups)
  }

  /** Visiting a node without a paragraph leaves the grouping as it was. */
  lemma GroupsSkipOrphan(nodes: seq<TextNode>, order: seq<ParagraphId>,
                         groups: map<ParagraphId, seq<nat>>, i: nat)
    requires GroupsSoFar(nodes, order, groups, i) && i < |nodes| && nodes[i].paragraph.None?
    ensures GroupsSoFar(nodes, order, groups, i + 1)
  {
  }

  /** computeIfAbsent for a paragraph met for the first time, then add(i). */
  lemma GroupsAppendNew(nodes: seq<TextNode>, order: seq<ParagraphId>,
                        groups: map<ParagraphId, seq<nat>>, i: nat, p: ParagraphId)
    requires GroupsSoFar(nodes, order, groups, i) && i < |nodes| && nodes[i].paragraph == Some(p)
    requires p !in groups
    ensures GroupsSoFar(nodes, order + [p], groups[p := [i]], i + 1)
  {
    GroupUpToAbsent(nodes, p, i);
    FirstIndexAt(nodes, p, i);
  }

  /** add(i) to the list of a paragraph met before. */
  lemma GroupsAppendKnown(nodes: seq<TextNode>, order: seq<ParagraphId>,
                          groups: map<ParagraphId, seq<nat>>, i: nat, p: ParagraphId)
    requires GroupsSoFar(nodes, order, groups, i) && i < |nodes| && nodes[i].paragraph == Some(p)
    requires p in groups
    ensures GroupsSoFar(nodes, order, groups[p := groups[p] + [i]], i + 1)
  {
  }

  /**
   * paraToTexts.computeIfAbsent(p, ...).add(i): a paragraph met for the first
   * time gets a new list at the end of the key order; node i joins p's list.
   */
  method AddToGroup(ghost nodes: seq<TextNode>, order: seq<ParagraphId>, groups: map<ParagraphId, seq<nat>>,
                    i: nat, p: ParagraphId)
    returns (order': seq<ParagraphId>, groups': map<ParagraphId, seq<nat>>)
    requires GroupsSoFar(nodes, order, groups, i) && i < |nodes| && nodes[i].paragraph == Some(p)
    ensures GroupsSoFar(nodes, order', groups', i + 1)
  {
    if p !in groups {
      GroupsAppendNew(nodes, order, groups, i, p);
      order', groups' := order + [p], groups[p := [i]];
    } else {
      GroupsAppendKnown(nodes, order, groups, i, p);
      order', groups' := order, groups[p := groups[p] + [i]];
    }
  }

  /**
   * The first loop of replacePlaceholders: a node without a paragraph is resolved
   * on the spot; every other node is appended to its paragraph's list, and a
   * paragraph met for the first time is appended to `order` (the LinkedHashMap's
   * key order).
   */
  method CollectGroups(nodes: array<TextNode>, metadata: Metadata)
    returns (order: seq<ParagraphId>, groups: map<ParagraphId, seq<nat>>)
    modifies nodes
    ensures GroupsSoFar(old(nodes[..]), order, groups, nodes.Length)
    ensures forall j :: 0 <= j < nodes.Length ==>
      nodes[j] == if old(nodes[j]).paragraph.None? then ResolveAlone(old(nodes[j]), metadata) else old(nodes[j])
  {
    ghost var orig := nodes[..];
    order, groups := [], map[];
    var i := 0;
    while i < nodes.Length
      invariant 0 <= i <= nodes.Length
      invariant GroupsSoFar(orig, order, groups, i)
      invariant forall j :: 0 <= j < nodes.Length ==>
        nodes[j] == if j < i && orig[j].paragraph.None? then ResolveAlone(orig[j], metadata) else orig[j]
    {
      var t := nodes[i];
      match t.paragraph {
        case None =>
          GroupsSkipOrphan(orig, order, groups, i);
          ResolveOrphan(nodes, i, metadata);
        case Some(p) =>
          order, groups := AddToGroup(orig, order, groups, i, p);
      }
      i := i + 1;
    }
  }

  /**
   * replacePlaceholders: nodes without a paragraph are resolved alone; then each
   * paragraph's group, in first-appearance order, is resolved as one text.
   */
  method ReplacePlaceholders(nodes: array<TextNode>, metadata: Metadata)
    modifies nodes
    ensures nodes[..] == Resolve(old(nodes[..]), metadata)
  {
    ghost var orig := nodes[..];
    var order, groups := CollectGroups(nodes, metadata);
    var gi := 0;
    while gi < |order|
      invariant 0 <= gi <= |order|
      invariant forall j :: 0 <= j < nodes.Length ==>
        nodes[j] == if orig[j].paragraph.None? || orig[j].paragraph.value in order[..gi]
                    then ResolveNode(orig, metadata, j) else orig[j]
    {
      var p := order[gi];
      assert p !in order[..gi];
      ResolveGroup(nodes, metadata, p, groups[p], orig);
      assert forall q :: q in order[..gi + 1] <==> q in order[..gi] || q == p;
      gi := gi + 1;
    }
    assert order[..gi] == order;
  }

  // ---------------------------------------------------------------------------
  // Properties of resolution

  /** A node is first in its paragraph exactly when the paragraph's list was still empty. */
  lemma FirstIffGroupEmpty(nodes: seq<TextNode>, p: ParagraphId, j: nat)
    requires j < |nodes| && nodes[j].paragraph == Some(p)
    ensures IsFirstOfParagraph(nodes, j) <==> GroupUpTo(nodes, p, j) == []
  {
    if IsFirstOfParagraph(nodes, j) {
      GroupUpToAbsent(nodes, p, j);
    } else {
      var k :| 0 <= k < j && nodes[k].paragraph == nodes[j].paragraph;
      GroupUpToIndices(nodes, p, j);
      assert k in GroupUpTo(nodes, p, j);
    }
  }

  /**
   * If, in r, the first node of paragraph p holds `text` and every later node of
   * p holds "", then p's nodes among the first n of r concatenate to `text` once
   * the first of them is included, and to "" before.
   */
  lemma {:induction false} FirstHoldsAllUpTo(nodes: seq<TextNode>, r: seq<TextNode>, p: ParagraphId, text: string, n: nat)
    requires SameParagraphs(nodes, r) && n <= |nodes|
    requires forall j :: 0 <= j < |nodes| && nodes[j].paragraph == Some(p) ==>
      ValueOf(r[j]) == if GroupUpTo(nodes, p, j) == [] then text else ""
    ensures ParagraphTextUpTo(r, p, n) == if GroupUpTo(nodes, p, n) == [] then "" else text
    decreases n
  {
    if n > 0 {
      FirstHoldsAllUpTo(nodes, r, p, text, n - 1);
    }
  }

  /**
   * For a rewritten paragraph, the resolved values of its nodes concatenate to
   * the whole substituted text.
   */
  lemma RewrittenParagraph(nodes: seq<TextNode>, metadata: Metadata, p: ParagraphId)
    requires Rewrites(ParagraphText(nodes, p), metadata)
    ensures ParagraphText(Resolve(nodes, metadata), p) == SubstituteAll(ParagraphText(nodes, p), metadata)
  {
    var r := Resolve(nodes, metadata);
    var text := SubstituteAll(ParagraphText(nodes, p), metadata);
    forall j | 0 <= j < |nodes| && nodes[j].paragraph == Some(p)
      ensures ValueOf(r[j]) == if GroupUpTo(nodes, p, j) == [] then text else ""
    {
      FirstIffGroupEmpty(nodes, p, j);
    }
    FirstHoldsAllUpTo(nodes, r, p, text, |nodes|);
    CombinedGroupIsParagraphText(nodes, p, |nodes|);
  }

  /**
   * The point of paragraph-aware resolution: whatever way a paragraph's text is
   * split into runs, the logical text of the paragraph after resolution is the
   * substitution of its text before, so a placeholder split across runs is
   * replaced exactly as one held in a single run.
   */
  lemma ParagraphTextResolved(nodes: seq<TextNode>, metadata: Metadata, p: ParagraphId)
    ensures ParagraphText(Resolve(nodes, metadata), p) == SubstituteAll(ParagraphText(nodes, p), metadata)
  {
    var original := ParagraphText(nodes, p);
    if Rewrites(original, metadata) {
      RewrittenParagraph(nodes, metadata, p);
    } else {
      ParagraphTextFrame(nodes, Resolve(nodes, metadata), p, |nodes|);
      if original == "" {
        SubstituteAllEmptyText(metadata);
      }
    }
  }

  /**
   * A node without a paragraph keeps a null value, and otherwise ends up holding
   * the substitution of its own value; its paragraph is unchanged.
   */
  lemma OrphanResolved(nodes: seq<TextNode>, metadata: Metadata, j: nat)
    requires j < |nodes| && nodes[j].paragraph.None?
    ensures Resolve(nodes, metadata)[j].paragraph.None?
    ensures nodes[j].value.None? ==> Resolve(nodes, metadata)[j] == nodes[j]
    ensures ValueOf(Resolve(nodes, metadata)[j]) == SubstituteAll(ValueOf(nodes[j]), metadata)
  {
    if ValueOf(nodes[j]) == "" {
      SubstituteAllEmptyText(metadata);
    }
  }

  /**
   * A rewritten paragraph's first node holds the whole substituted text and every
   * later node of it holds "", and a paragraph substitution leaves unchanged is
   * left exactly as it was.
   */
  lemma ParagraphWriteBack(nodes: seq<TextNode>, metadata: Metadata, j: nat)
    requires j < |nodes| && nodes[j].paragraph.Some?
    ensures var original := ParagraphText(nodes, nodes[j].paragraph.value);
      && (Rewrites(original, metadata) && IsFirstOfParagraph(nodes, j) ==>
            Resolve(nodes, metadata)[j].value == Some(SubstituteAll(original, metadata)))
      && (Rewrites(original, metadata) && !IsFirstOfParagraph(nodes, j) ==>
            Resolve(nodes, metadata)[j].value == Some(""))
      && (!Rewrites(original, metadata) ==> Resolve(nodes, metadata)[j] == nodes[j])
  {
  }

  /** Every paragraph's text and every orphan's value is free of the metadata's tokens. */
  predicate TokenFree(nodes: seq<TextNode>, metadata: Metadata) {
    forall j :: 0 <= j < |nodes| ==>
      match nodes[j].paragraph
      case None => NoTokens(ValueOf(nodes[j]), metadata)
      case Some(p) => NoTokens(ParagraphText(nodes, p), metadata)
  }

  /** Without any token to replace, resolution changes nothing. */
  lemma ResolveTokenFree(nodes: seq<TextNode>, metadata: Metadata)
    requires TokenFree(nodes, metadata)
    ensures Resolve(nodes, metadata) == nodes
  {
    forall j | 0 <= j < |nodes|
      ensures Resolve(nodes, metadata)[j] == nodes[j]
    {
      match nodes[j].paragraph
      case None => SubstituteAllWithoutTokens(ValueOf(nodes[j]), metadata);
      case Some(p) => SubstituteAllWithoutTokens(ParagraphText(nodes, p), metadata);
    }
  }

  /** With empty metadata (also what a null metadata map becomes), resolution changes nothing. */
  lemma ResolveEmptyMetadata(nodes: seq<TextNode>)
    ensures Resolve(nodes, []) == nodes
  {
    forall j | 0 <= j < |nodes|
      ensures Resolve(nodes, [])[j] == nodes[j]
    {
    }
  }

  /** The two runs of the split-placeholder example join to one token. */
  lemma SplitRunsText()
    ensures "" + "[@NA" + "ME]" == Token("NAME") + ""
  {
  }

  /** The split placeholder's paragraph text, and its substitution. */
  lemma SplitParagraph(nodes: seq<TextNode>, metadata: Metadata)
    requires nodes == [TextNode(Some("[@NA"), Some(0)), TextNode(Some("ME]"), Some(0))]
    requires metadata == [("NAME", Some("Ada"))]
    ensures ParagraphText(nodes, 0) == Token("NAME") + ""
    ensures SubstituteAll(ParagraphText(nodes, 0), metadata) == "Ada"
  {
    SplitRunsText();
    assert ParagraphTextUpTo(nodes, 0, 1) == "" + "[@NA";
    assert ParagraphText(nodes, 0) == ParagraphTextUpTo(nodes, 0, 1) + "ME]";
    assert metadata[..0] == [];
    ReplaceAllTokenFirst("", Token("NAME"), "Ada");
  }

  /**
   * A placeholder split across two runs of one paragraph is still replaced: the
   * first run receives the value and the second is emptied.
   */
  lemma SplitPlaceholderExample()
    ensures Resolve([TextNode(Some("[@NA"), Some(0)), TextNode(Some("ME]"), Some(0))], [("NAME", Some("Ada"))])
         == [TextNode(Some("Ada"), Some(0)), TextNode(Some(""), Some(0))]
  {
    var nodes := [TextNode(Some("[@NA"), Some(0)), TextNode(Some("ME]"), Some(0))];
    var metadata: Metadata := [("NAME", Some("Ada"))];
    SplitParagraph(nodes, metadata);
    assert Token("NAME") + "" != "Ada";
    assert !IsFirstOfParagraph(nodes, 1) by {
      assert nodes[0].paragraph == nodes[1].paragraph;
    }
    assert Resolve(nodes, metadata)[0] == TextNode(Some("Ada"), Some(0));
    assert Resolve(nodes, metadata)[1] == TextNode(Some(""), Some(0));
  }
}
