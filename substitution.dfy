/**
 * Placeholder substitution on one string: DocTemplateService.replaceAllPlaceholders
 * and the java.lang.String.replace(CharSequence, CharSequence) call it makes for
 * every metadata entry.
 */
module Substitution {
  import opened Wrappers

  /** One metadata entry: a key and its value, None standing for a null value. */
  type Entry = (string, Option<string>)

  /** The metadata map's entries, in the order its entrySet() yields them. */
  type Metadata = seq<Entry>

  /** The placeholder token of a key: "[@" + key + "]". */
  function Token(key: string): (t: string)
    ensures |t| == |key| + 3 && t[0] == '[' && t[1] == '@' && t[|t| - 1] == ']'
    ensures t[2..|t| - 1] == key
  {
    "[@" + key + "]"
  }

  /** The text an entry's token is replaced by: a null value counts as "". */
  function ValueText(value: Option<string>): string {
    value.GetOr("")
  }

  /** `t` occurs in `s` starting at index `i`. */
  predicate OccursAt(s: string, t: string, i: nat) {
    i + |t| <= |s| && s[i..i + |t|] == t
  }

  /** `t` occurs somewhere in `s` (String.contains). */
  predicate Contains(s: string, t: string) {
    exists i: nat :: i <= |s| && OccursAt(s, t, i)
  }

  /** `t` is a prefix of `s`. */
  predicate StartsWith(s: string, t: string) {
    |t| <= |s| && s[..|t|] == t
  }

  /**
   * s.replace(t, v) for a non-empty target: scanning left to right, every
   * occurrence of `t` that does not overlap an earlier replaced one becomes `v`;
   * the text of `v` is never scanned again.
   */
  function ReplaceAll(s: string, t: string, v: string): (r: string)
    requires t != []
    decreases |s|
  {
    if |s| < |t| then s
    else if StartsWith(s, t) then v + ReplaceAll(s[|t|..], t, v)
    else [s[0]] + ReplaceAll(s[1..], t, v)
  }

  /** The number of occurrences that ReplaceAll replaces. */
  function Count(s: string, t: string): nat
    requires t != []
    decreases |s|
  {
    if |s| < |t| then 0
    else if StartsWith(s, t) then 1 + Count(s[|t|..], t)
    else Count(s[1..], t)
  }

  /** One iteration of the loop in replaceAllPlaceholders: result.replace(token, val). */
  function ReplaceEntry(text: string, e: Entry): string {
    ReplaceAll(text, Token(e.0), ValueText(e.1))
  }

  /**
   * replaceAllPlaceholders as a left fold: the entries are applied one after the
   * other, each to the output of the previous ones.
   */
  function SubstituteAll(text: string, metadata: Metadata): string
    decreases |metadata|
  {
    if metadata == [] then text
    else ReplaceEntry(SubstituteAll(text, metadata[..|metadata| - 1]), metadata[|metadata| - 1])
  }

  /** No token of any entry's key occurs in `text`. */
  predicate NoTokens(text: string, metadata: Metadata) {
    forall k :: 0 <= k < |metadata| ==> !Contains(text, Token(metadata[k].0))
  }

  /** The loop of replaceAllPlaceholders: one replace call per entry, in entry order. */
  method ReplaceAllPlaceholders(text: string, metadata: Metadata) returns (result: string)
    ensures result == SubstituteAll(text, metadata)
  {
    result := text;
    var i := 0;
    while i < |metadata|
      invariant 0 <= i <= |metadata|
      invariant result == SubstituteAll(text, metadata[..i])
    {
      var key := metadata[i].0;
      var token := "[@" + key + "]";
      var val := if metadata[i].1.None? then "" else metadata[i].1.value;
      result := ReplaceAll(result, token, val);
      assert metadata[..i + 1][..i] == metadata[..i];
      i := i + 1;
    }
    assert metadata[..i] == metadata;
  }

  // ---------------------------------------------------------------------------
  // String.replace: what one entry's step does

  /** A text without the target comes back unchanged. */
  lemma {:induction false} ReplaceAllAbsent(s: string, t: string, v: string)
    requires t != [] && !Contains(s, t)
    ensures ReplaceAll(s, t, v) == s
    decreases |s|
  {
    if |s| >= |t| {
      assert !OccursAt(s, t, 0);
      assert !Contains(s[1..], t) by {
        forall i: nat | OccursAt(s[1..], t, i) ensures OccursAt(s, t, i + 1) {
          assert s[i + 1..i + 1 + |t|] == s[1..][i..i + |t|];
        }
      }
      ReplaceAllAbsent(s[1..], t, v);
      assert [s[0]] + s[1..] == s;
    }
  }

  /** An occurrence in s[1..] is an occurrence in s one position later. */
  lemma OccursShift(s: string, t: string, j: nat)
    requires s != []
    ensures OccursAt(s[1..], t, j) <==> OccursAt(s, t, j + 1)
  {
    if j + |t| <= |s[1..]| {
      assert s[1..][j..j + |t|] == s[j + 1..j + 1 + |t|];
    }
  }

  /** Where the target does not start, one character is copied and scanning moves on. */
  lemma ReplaceAllSkip(s: string, t: string, v: string)
    requires t != [] && |s| >= |t| && !StartsWith(s, t)
    ensures ReplaceAll(s, t, v) == [s[0]] + ReplaceAll(s[1..], t, v)
  {
  }

  /**
   * Leftmost, non-overlapping replacement without rescanning: the text before the
   * first occurrence is copied, the occurrence becomes `v` verbatim, and scanning
   * resumes in the INPUT right after the occurrence.
   */
  lemma {:induction false} ReplaceAllLeftmost(s: string, t: string, v: string, i: nat)
    requires t != [] && OccursAt(s, t, i)
    requires forall j: nat :: j < i ==> !OccursAt(s, t, j)
    ensures ReplaceAll(s, t, v) == s[..i] + v + ReplaceAll(s[i + |t|..], t, v)
    decreases i
  {
    if i == 0 {
      assert StartsWith(s, t);
      assert ReplaceAll(s, t, v) == v + ReplaceAll(s[|t|..], t, v);
      assert s[..i] + v == v;
    } else {
      var s' := s[1..];
      NoEarlierOccurrenceShift(s, t, i);
      var rest := ReplaceAll(s[i + |t|..], t, v);
      LeftmostShiftSlices(s, t, v, i, rest);
      assert ReplaceAll(s', t, v) == s'[..i - 1] + v + rest by {
        ReplaceAllLeftmost(s', t, v, i - 1);
      }
      assert ReplaceAll(s, t, v) == [s[0]] + ReplaceAll(s', t, v) by {
        ReplaceAllSkip(s, t, v);
      }
    }
  }

  /** Dropping the first character shifts the leftmost occurrence one place to the left. */
  lemma NoEarlierOccurrenceShift(s: string, t: string, i: nat)
    requires 0 < i && OccursAt(s, t, i)
    requires forall j: nat :: j < i ==> !OccursAt(s, t, j)
    ensures |s| >= |t| && !StartsWith(s, t)
    ensures OccursAt(s[1..], t, i - 1)
    ensures forall j: nat :: j < i - 1 ==> !OccursAt(s[1..], t, j)
  {
    assert !OccursAt(s, t, 0);
    OccursShift(s, t, i - 1);
    forall j: nat | j < i - 1 ensures !OccursAt(s[1..], t, j) {
      OccursShift(s, t, j);
    }
  }

  /** The slicing identities behind one step of ReplaceAllLeftmost. */
  lemma LeftmostShiftSlices(s: string, t: string, v: string, i: nat, rest: string)
    requires 0 < i && i + |t| <= |s|
    ensures [s[0]] + (s[1..][..i - 1] + v + rest) == s[..i] + v + rest
    ensures s[1..][i - 1 + |t|..] == s[i + |t|..]
  {
    assert [s[0]] + s[1..][..i - 1] == s[..i];
  }

  /** The leftmost occurrence exists whenever the target occurs at all. */
  lemma LeftmostExists(s: string, t: string) returns (i: nat)
    requires Contains(s, t)
    ensures OccursAt(s, t, i) && forall j: nat :: j < i ==> !OccursAt(s, t, j)
  {
    var k: nat :| OccursAt(s, t, k);
    i := k;
    while exists j: nat :: j < i && OccursAt(s, t, j)
      invariant OccursAt(s, t, i)
      decreases i
    {
      var j: nat :| j < i && OccursAt(s, t, j);
      i := j;
    }
  }

  /** A token at the very start becomes `v`, which is emitted and not scanned again. */
  lemma ReplaceAllTokenFirst(s: string, t: string, v: string)
    requires t != []
    ensures ReplaceAll(t + s, t, v) == v + ReplaceAll(s, t, v)
  {
    assert StartsWith(t + s, t);
    assert (t + s)[|t|..] == s;
  }

  /** Characters that cannot start the target are copied through unchanged. */
  lemma {:induction false} ReplaceAllPlainPrefix(p: string, s: string, t: string, v: string)
    requires t != []
    requires forall i :: 0 <= i < |p| ==> p[i] != t[0]
    ensures ReplaceAll(p + s, t, v) == p + ReplaceAll(s, t, v)
    decreases |p|
  {
    if p == [] {
      assert p + s == s;
    } else {
      var q := p + s;
      assert q[1..] == p[1..] + s;
      ReplaceAllPlainPrefix(p[1..], s, t, v);
      if |q| < |t| {
        assert ReplaceAll(s, t, v) == s;
        assert ReplaceAll(q, t, v) == q;
      } else {
        assert q[0] == p[0];
        assert !StartsWith(q, t) by { assert q[..|t|][0] == q[0]; }
        assert ReplaceAll(q, t, v) == [q[0]] + ReplaceAll(q[1..], t, v);
        assert [p[0]] + p[1..] == p;
      }
    }
  }

  /** Replacing the target by itself changes nothing. */
  lemma {:induction false} ReplaceAllBySelf(s: string, t: string)
    requires t != []
    ensures ReplaceAll(s, t, t) == s
    decreases |s|
  {
    if |s| >= |t| {
      if StartsWith(s, t) {
        ReplaceAllBySelf(s[|t|..], t);
        assert s[..|t|] + s[|t|..] == s;
      } else {
        ReplaceAllBySelf(s[1..], t);
        assert [s[0]] + s[1..] == s;
      }
    }
  }

  /** Every replacement changes the length by |v| - |t|. */
  lemma {:induction false} ReplaceAllLength(s: string, t: string, v: string)
    requires t != []
    ensures |ReplaceAll(s, t, v)| == |s| + Count(s, t) * (|v| - |t|)
    decreases |s|
  {
    if |s| >= |t| {
      if StartsWith(s, t) {
        ReplaceAllLength(s[|t|..], t, v);
        LengthStep(|s|, |t|, |v|, Count(s[|t|..], t), |ReplaceAll(s[|t|..], t, v)|);
      } else {
        ReplaceAllSkip(s, t, v);
        ReplaceAllLength(s[1..], t, v);
      }
    }
  }

  /** The arithmetic of one replacement step in ReplaceAllLength. */
  lemma LengthStep(ls: int, lt: int, lv: int, c: int, lr: int)
    requires lr == ls - lt + c * (lv - lt)
    ensures lv + lr == ls + (c + 1) * (lv - lt)
  {
  }

  /** Neither factor is zero, so neither is the product. */
  lemma NonZeroProduct(a: int, b: int)
    requires a > 0 && b != 0
    ensures a * b != 0
  {
  }

  /** Once `t` has been replaced by a different `v`, the rest cannot make up for it. */
  lemma ReplacedTailDiffers(w: string, t: string, v: string)
    requires t != [] && v != t
    ensures v + ReplaceAll(w, t, v) != t + w
  {
    var rest := ReplaceAll(w, t, v);
    if |v| == |t| {
      assert (v + rest)[..|t|] == v;
      assert (t + w)[..|t|] == t;
    } else {
      ReplaceAllLength(w, t, v);
      LengthStep(|w| + |t|, |t|, |v|, Count(w, t), |rest|);
      NonZeroProduct(Count(w, t) + 1, |v| - |t|);
      assert |v + rest| != |t + w|;
    }
  }

  /** A replacement by a different text always shows in the result. */
  lemma ReplaceAllChanges(s: string, t: string, v: string)
    requires t != [] && Contains(s, t) && v != t
    ensures ReplaceAll(s, t, v) != s
  {
    var i := LeftmostExists(s, t);
    var w := s[i + |t|..];
    var x, y := v + ReplaceAll(w, t, v), t + w;
    assert ReplaceAll(s, t, v) == s[..i] + x by {
      ReplaceAllLeftmost(s, t, v, i);
    }
    assert s == s[..i] + y;
    ReplacedTailDiffers(w, t, v);
    assert (s[..i] + x)[i..] == x && (s[..i] + y)[i..] == y;
  }

  /** One entry's step changes the text exactly when its target occurs and `v` differs from it. */
  lemma ReplaceAllUnchangedIff(s: string, t: string, v: string)
    requires t != []
    ensures ReplaceAll(s, t, v) == s <==> (!Contains(s, t) || v == t)
  {
    if !Contains(s, t) {
      ReplaceAllAbsent(s, t, v);
    } else if v == t {
      ReplaceAllBySelf(s, t);
    } else {
      ReplaceAllChanges(s, t, v);
    }
  }

  // ---------------------------------------------------------------------------
  // The fold over the entries

  /** A text in which no key's token occurs is returned unchanged. */
  lemma {:induction false} SubstituteAllWithoutTokens(text: string, metadata: Metadata)
    requires NoTokens(text, metadata)
    ensures SubstituteAll(text, metadata) == text
    decreases |metadata|
  {
    if metadata != [] {
      var init := metadata[..|metadata| - 1];
      assert NoTokens(text, init) by {
        forall k | 0 <= k < |init| ensures !Contains(text, Token(init[k].0)) {
          assert init[k] == metadata[k];
        }
      }
      SubstituteAllWithoutTokens(text, init);
      var last := metadata[|metadata| - 1];
      assert !Contains(text, Token(last.0));
      ReplaceAllAbsent(text, Token(last.0), ValueText(last.1));
    }
  }

  /** With empty metadata nothing is replaced. */
  lemma SubstituteAllEmptyMetadata(text: string)
    ensures SubstituteAll(text, []) == text
  {
  }

  /** The empty text stays empty whatever the metadata. */
  lemma {:induction false} SubstituteAllEmptyText(metadata: Metadata)
    ensures SubstituteAll("", metadata) == ""
    decreases |metadata|
  {
    if metadata != [] {
      SubstituteAllEmptyText(metadata[..|metadata| - 1]);
    }
  }

  /**
   * The fold is not recursion-free across keys: a value inserted for one key is
   * scanned by every later key, so the outcome depends on the entry order.
   */
  lemma CrossKeyExpansion()
    ensures SubstituteAll("[@A]", [("A", Some("[@B]")), ("B", Some("x"))]) == "x"
    ensures SubstituteAll("[@A]", [("B", Some("x")), ("A", Some("[@B]"))]) == "[@B]"
  {
    var ab: Metadata := [("A", Some("[@B]")), ("B", Some("x"))];
    var ba: Metadata := [("B", Some("x")), ("A", Some("[@B]"))];
    assert ab[..1] == [ab[0]] && ba[..1] == [ba[0]];
    assert SubstituteAll("[@A]", ab[..1]) == "[@B]" by {
      ReplaceAllTokenFirst("", Token("A"), "[@B]");
    }
    assert SubstituteAll("[@B]", []) == "[@B]";
    ReplaceAllTokenFirst("", Token("B"), "x");
    assert SubstituteAll("[@A]", ba[..1]) == "[@A]" by {
      assert !StartsWith("[@A]", Token("B")) by { assert "[@A]"[2] != Token("B")[2]; }
      assert "[@A]" == ["[@A]"[0]] + "[@A]"[1..];
    }
    ReplaceAllTokenFirst("", Token("A"), "[@B]");
  }

  /**
   * A key's step does not rescan what it inserted: replacing a token by a value
   * that itself contains the token yields that value, once.
   */
  lemma {:induction false} ValueNotRescanned(t: string, v: string)
    requires t != []
    ensures ReplaceAll(t, t, v) == v
    ensures ReplaceAll(t + t, t, v) == v + v
  {
    assert t + [] == t;
    ReplaceAllTokenFirst([], t, v);
    ReplaceAllTokenFirst(t, t, v);
  }

  /** The literal text of the greeting example, split at its token. */
  lemma GreetingText()
    ensures "Dear [@NAME]" == "Dear " + (Token("NAME") + "")
  {
  }

  /** The greeting's one token is replaced by any value. */
  lemma GreetingReplace(v: string)
    ensures ReplaceAll("Dear [@NAME]", Token("NAME"), v) == "Dear " + v
  {
    GreetingText();
    ReplaceAllPlainPrefix("Dear ", Token("NAME") + "", Token("NAME"), v);
    ReplaceAllTokenFirst("", Token("NAME"), v);
  }

  /** A token after plain text is replaced by the value, and a null value by "". */
  lemma GreetingExample()
    ensures SubstituteAll("Dear [@NAME]", [("NAME", Some("Ada"))]) == "Dear Ada"
    ensures SubstituteAll("Dear [@NAME]", [("NAME", None)]) == "Dear "
  {
    var some: Metadata := [("NAME", Some("Ada"))];
    var none: Metadata := [("NAME", None)];
    assert some[..0] == [] && none[..0] == [];
    assert SubstituteAll("Dear [@NAME]", some) == "Dear Ada" by {
      GreetingReplace("Ada");
    }
    assert SubstituteAll("Dear [@NAME]", none) == "Dear " by {
      GreetingReplace("");
    }
  }
}
