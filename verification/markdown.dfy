/** `stripMarkdown` of count_corpus.py (the same function appears in
    convert_corpus.py): nine `re.sub(pattern, '', content)` passes in a fixed
    order. Each substitution replaces its matches with nothing, so each pass
    deletes a set of positions. The three single-character passes (`#+`,
    `\*+` and the backtick) and the fenced-code pass are modelled exactly; the
    other five regular expressions (the leading block quote, images, links,
    block-quote markers and horizontal rules) are parameters that say which
    positions their matches cover. */
module Markdown {
  import opened Text

  // ---------------------------------------------------------------------------
  // Deleting positions

  /** A regular-expression pass seen only through what it deletes: for a
      string, the positions its matches cover (`true` = deleted). Positions
      past the end of the mask are kept. */
  type Pass = string -> seq<bool>

  /** `s` without the positions `gone` marks. */
  function Delete(s: string, gone: seq<bool>): (r: string)
    ensures |r| <= |s|
    ensures forall c :: c in r ==> c in s
  {
    if |s| == 0 then []
    else
      (if |gone| > 0 && gone[0] then [] else [s[0]]) + Delete(s[1..], if |gone| > 0 then gone[1..] else [])
  }

  /** `re.sub(pattern, '', s)` for a pattern given as a pass. */
  function Apply(pass: Pass, s: string): string
  {
    Delete(s, pass(s))
  }

  /** The test of a character that a deleting pass for `c` keeps. */
  function Other(c: char): char -> bool
  {
    x => x != c
  }

  /** `re.sub(r'c+', '', s)`, or `re.sub(r'c', '', s)`: every `c` is deleted. */
  function DeleteChar(s: string, c: char): (r: string)
    ensures c !in r
  {
    Filter(Other(c), s)
  }

  // ---------------------------------------------------------------------------
  // Subsequences

  /** `idx` picks the characters of `t` out of `s`, at increasing positions. */
  ghost predicate Embeds(t: string, s: string, idx: seq<nat>)
  {
    && |idx| == |t|
    && (forall i :: 0 <= i < |t| ==> idx[i] < |s| && t[i] == s[idx[i]])
    && (forall i, j :: 0 <= i < j < |t| ==> idx[i] < idx[j])
  }

  /** `t` is what is left of `s` after deleting some positions. */
  ghost predicate IsSubseq(t: string, s: string)
  {
    exists idx :: Embeds(t, s, idx)
  }

  /** Positions shifted one to the right. */
  function Shift(idx: seq<nat>): (r: seq<nat>)
    ensures |r| == |idx|
    ensures forall i :: 0 <= i < |idx| ==> r[i] == idx[i] + 1
  {
    seq(|idx|, i requires 0 <= i < |idx| => idx[i] + 1)
  }

  /** Deleting positions leaves a subsequence. */
  lemma {:induction false} DeleteEmbeds(s: string, gone: seq<bool>) returns (idx: seq<nat>)
    ensures Embeds(Delete(s, gone), s, idx)
  {
    if |s| == 0 {
      idx := [];
    } else {
      var rest := if |gone| > 0 then gone[1..] else [];
      var tail := DeleteEmbeds(s[1..], rest);
      var t := Delete(s[1..], rest);
      if |gone| > 0 && gone[0] {
        assert Delete(s, gone) == t;
        idx := EmbedsSkip(t, s, tail);
      } else {
        assert Delete(s, gone) == [s[0]] + t;
        idx := EmbedsKeep(t, s, tail);
      }
    }
  }

  /** An embedding into the tail of `s` is one into `s`. */
  lemma EmbedsSkip(t: string, s: string, tail: seq<nat>) returns (idx: seq<nat>)
    requires |s| > 0 && Embeds(t, s[1..], tail)
    ensures Embeds(t, s, idx)
  {
    idx := Shift(tail);
    forall i | 0 <= i < |t|
      ensures t[i] == s[idx[i]]
    {
      assert s[1..][tail[i]] == s[tail[i] + 1];
    }
  }

  /** Keeping the first character extends an embedding into the tail. */
  lemma EmbedsKeep(t: string, s: string, tail: seq<nat>) returns (idx: seq<nat>)
    requires |s| > 0 && Embeds(t, s[1..], tail)
    ensures Embeds([s[0]] + t, s, idx)
  {
    idx := [0] + Shift(tail);
    var r := [s[0]] + t;
    forall i | 0 < i < |r|
      ensures idx[i] < |s| && r[i] == s[idx[i]]
    {
      assert r[i] == t[i - 1];
      assert s[1..][tail[i - 1]] == s[tail[i - 1] + 1];
    }
  }

  /** Deleting characters with `Filter` is deleting the positions holding them. */
  lemma {:induction false} FilterIsDelete(keep: char -> bool, s: string)
    ensures Filter(keep, s) == Delete(s, seq(|s|, i requires 0 <= i < |s| => !keep(s[i])))
  {
    var gone := seq(|s|, i requires 0 <= i < |s| => !keep(s[i]));
    if |s| > 0 {
      FilterIsDelete(keep, s[1..]);
      assert gone[1..] == seq(|s[1..]|, i requires 0 <= i < |s[1..]| => !keep(s[1..][i]));
    }
  }

  lemma DeleteCharSubseq(s: string, c: char)
    ensures IsSubseq(DeleteChar(s, c), s)
  {
    FilterIsDelete(Other(c), s);
    var idx := DeleteEmbeds(s, seq(|s|, i requires 0 <= i < |s| => !Other(c)(s[i])));
  }

  lemma ApplySubseq(pass: Pass, s: string)
    ensures IsSubseq(Apply(pass, s), s)
  {
    var idx := DeleteEmbeds(s, pass(s));
  }

  /** A subsequence of a subsequence is a subsequence. */
  lemma SubseqTrans(a: string, b: string, c: string)
    requires IsSubseq(a, b) && IsSubseq(b, c)
    ensures IsSubseq(a, c)
  {
    var i1 :| Embeds(a, b, i1);
    var i2 :| Embeds(b, c, i2);
    var idx := seq(|a|, k requires 0 <= k < |a| => i2[i1[k]]);
    assert Embeds(a, c, idx);
  }

  // ---------------------------------------------------------------------------
  // The fenced-code pass

  /** The first position at or after `from` where three backticks start, or -1. */
  function FenceFrom(s: string, from: nat): (r: int)
    ensures r == -1 || (from <= r && OccursAt("```", s, r))
    ensures r == -1 ==> forall k :: from <= k && OccursAt("```", s, k) ==> false
    ensures r >= 0 ==> forall k :: from <= k < r ==> !OccursAt("```", s, k)
    decreases |s| - from
  {
    if from + 3 > |s| then -1
    else if OccursAt("```", s, from) then from
    else FenceFrom(s, from + 1)
  }

  /** `re.sub(r'```.*?```', '', s, flags=re.S)`: the leftmost opening fence
      and the nearest closing fence after it are deleted with everything
      between them, and the search resumes after the closing fence. An
      opening fence with no closing fence ends the search. Each match
      removed holds both fences, so a changed string lost at least six
      characters. */
  function DeleteFences(s: string): (r: string)
    ensures |r| <= |s|
    ensures r != s ==> |r| <= |s| - 6
    decreases |s|
  {
    var i := FenceFrom(s, 0);
    if i < 0 then s
    else
      var j := FenceFrom(s, i + 3);
      if j < 0 then s else s[..i] + DeleteFences(s[j + 3..])
  }

  /** Without backticks there is no fence, and the pass changes nothing. */
  lemma FencesNoOp(s: string)
    requires '`' !in s
    ensures DeleteFences(s) == s
  {
    forall k | 0 <= k && k + 3 <= |s|
      ensures !OccursAt("```", s, k)
    {
      assert s[k] != '`';
    }
  }

  // ---------------------------------------------------------------------------
  // stripMarkdown

  /** The five passes whose regular expressions are not modelled. */
  datatype Patterns = Patterns(headerBlock: Pass, images: Pass, links: Pass, quotes: Pass, rules: Pass)

  /** The string after the first six passes: the leading block quote,
      images and links removed, then every `#`, `*` and backtick. */
  function Unmarked(s: string, p: Patterns): string
  {
    var c := Apply(p.links, Apply(p.images, Apply(p.headerBlock, s)));
    DeleteChar(DeleteChar(DeleteChar(c, '#'), '*'), '`')
  }

  /** `stripMarkdown(s)`. */
  function StripMarkdown(s: string, p: Patterns): string
  {
    DeleteFences(Apply(p.rules, Apply(p.quotes, Unmarked(s, p))))
  }

  /** The backtick pass runs before the fenced-code pass, which therefore
      never matches. */
  lemma FencePassIsNoOp(s: string, p: Patterns)
    ensures var c := Apply(p.rules, Apply(p.quotes, Unmarked(s, p)));
            StripMarkdown(s, p) == c
  {
    var c := Apply(p.rules, Apply(p.quotes, Unmarked(s, p)));
    FencesNoOp(c);
  }

  /** No `#`, `*` or backtick survives: they are deleted outright and the
      later passes only delete. */
  lemma StripMarkdownClean(s: string, p: Patterns)
    ensures var r := StripMarkdown(s, p);
            '#' !in r && '*' !in r && '`' !in r
  {
    FencePassIsNoOp(s, p);
    var u := Unmarked(s, p);
    var c := DeleteChar(Apply(p.links, Apply(p.images, Apply(p.headerBlock, s))), '#');
    assert '#' !in DeleteChar(c, '*');
  }

  /** Every pass replaces its matches with nothing, so the result is a
      subsequence of the input. */
  lemma StripMarkdownDeletes(s: string, p: Patterns)
    ensures IsSubseq(StripMarkdown(s, p), s)
  {
    var c1 := Apply(p.headerBlock, s);
    var c2 := Apply(p.images, c1);
    var c3 := Apply(p.links, c2);
    var c4 := DeleteChar(c3, '#');
    var c5 := DeleteChar(c4, '*');
    var c6 := DeleteChar(c5, '`');
    var c7 := Apply(p.quotes, c6);
    var c8 := Apply(p.rules, c7);
    ApplySubseq(p.headerBlock, s);
    ApplySubseq(p.images, c1);
    SubseqTrans(c2, c1, s);
    ApplySubseq(p.links, c2);
    SubseqTrans(c3, c2, s);
    DeleteCharSubseq(c3, '#');
    SubseqTrans(c4, c3, s);
    DeleteCharSubseq(c4, '*');
    SubseqTrans(c5, c4, s);
    DeleteCharSubseq(c5, '`');
    SubseqTrans(c6, c5, s);
    ApplySubseq(p.quotes, c6);
    SubseqTrans(c7, c6, s);
    ApplySubseq(p.rules, c7);
    SubseqTrans(c8, c7, s);
    FencePassIsNoOp(s, p);
  }

  /** The markup characters. */
  predicate Plain(c: char)
  {
    c != '#' && c != '*' && c != '`'
  }

  /** A pass that matches nothing in `s`. */
  predicate Idle(pass: Pass, s: string)
  {
    forall i :: 0 <= i < |pass(s)| ==> !pass(s)[i]
  }

  lemma {:induction false} DeleteNothing(s: string, gone: seq<bool>)
    requires forall i :: 0 <= i < |gone| ==> !gone[i]
    ensures Delete(s, gone) == s
  {
    if |s| > 0 {
      DeleteNothing(s[1..], if |gone| > 0 then gone[1..] else []);
    }
  }

  lemma DeleteCharCons(x: char, s: string, c: char)
    ensures DeleteChar([x] + s, c) == (if x != c then [x] else []) + DeleteChar(s, c)
  {
    assert ([x] + s)[1..] == s;
  }

  lemma {:induction false} DeleteMarkup(s: string)
    ensures DeleteChar(DeleteChar(DeleteChar(s, '#'), '*'), '`') == Filter(Plain, s)
  {
    if |s| > 0 {
      var x, t := s[0], s[1..];
      assert s == [x] + t;
      assert Filter(Plain, s) == (if Plain(x) then [x] else []) + Filter(Plain, t);
      DeleteMarkup(t);
      DeleteCharCons(x, t, '#');
      var a := DeleteChar(t, '#');
      if x != '#' {
        DeleteCharCons(x, a, '*');
        var b := DeleteChar(a, '*');
        if x != '*' {
          DeleteCharCons(x, b, '`');
        } else {
          assert DeleteChar([x] + a, '*') == b;
        }
      } else {
        assert DeleteChar(s, '#') == a;
      }
    }
  }

  /** On a text where none of the five unmodelled patterns matches, the
      result is the text with every `#`, `*` and backtick removed and
      nothing else changed. */
  lemma StripMarkdownPlainText(s: string, p: Patterns)
    requires Idle(p.headerBlock, s)
    requires Idle(p.images, s) && Idle(p.links, s)
    requires var u := Filter(Plain, s); Idle(p.quotes, u) && Idle(p.rules, u)
    ensures StripMarkdown(s, p) == Filter(Plain, s)
  {
    DeleteNothing(s, p.headerBlock(s));
    DeleteNothing(s, p.images(s));
    DeleteNothing(s, p.links(s));
    DeleteMarkup(s);
    var u := Filter(Plain, s);
    DeleteNothing(u, p.quotes(u));
    DeleteNothing(u, p.rules(u));
    FencePassIsNoOp(s, p);
  }
}
