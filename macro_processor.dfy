/**
 * `MacroProcessor`: expands `[[key]]`-style macros in a template from a
 * substitution dictionary. Undefined macros and an unterminated macro start
 * are copied verbatim, and scanning resumes after each closing delimiter.
 */
module MacroProcessor {
  import opened Wrappers
  import opened Text

  datatype MacroProcessorError = EmptyMacroDelimiter

  /** A processor's four immutable properties. */
  datatype Processor = Processor(template: string, substitutions: map<string, string>,
                                 macroStart: string, macroEnd: string)
  {
    ghost predicate Valid() {
      |macroStart| > 0 && |macroEnd| > 0
    }
  }

  /** `init(template:substitutions:macroStart:macroEnd:)`: throws when a delimiter is empty. */
  function Create(template: string, substitutions: map<string, string>,
                  macroStart: string, macroEnd: string): (r: Result<Processor, MacroProcessorError>)
    ensures r.Failure? <==> macroStart == "" || macroEnd == ""
    ensures r.Success? ==> r.value.Valid() && r.value == Processor(template, substitutions, macroStart, macroEnd)
  {
    if macroStart == "" || macroEnd == "" then Failure(EmptyMacroDelimiter)
    else Success(Processor(template, substitutions, macroStart, macroEnd))
  }

  /** The defaults of the Swift initialiser. */
  const DefaultMacroStart := "[["
  const DefaultMacroEnd := "]]"

  /** What one macro `start key end` expands to. */
  function Replacement(key: string, subs: map<string, string>, ms: string, me: string): string {
    if key in subs then subs[key] else ms + key + me
  }

  /** The rendered text of `t` from position `from` on, macro by macro from the left. */
  function RenderFrom(t: string, subs: map<string, string>, ms: string, me: string, from: nat): string
    requires |ms| > 0 && |me| > 0 && from <= |t|
    decreases |t| - from, 1
  {
    var start := FindFrom(t, ms, from);
    if start.None? then t[from..]
    else RenderMacroAt(t, subs, ms, me, from, start.value)
  }

  /** The rendered text from `from` on, given that the first macro start after `from` is at `i`. */
  function RenderMacroAt(t: string, subs: map<string, string>, ms: string, me: string, from: nat, i: nat): string
    requires |ms| > 0 && |me| > 0 && from <= i && i + |ms| <= |t|
    decreases |t| - from, 0
  {
    var end := FindFrom(t, me, i + |ms|);
    if end.None? then t[from..]
    else t[from..i] + Replacement(t[i + |ms|..end.value], subs, ms, me) + RenderFrom(t, subs, ms, me, end.value + |me|)
  }

  /** The rendered text of the whole template. */
  function Render(t: string, subs: map<string, string>, ms: string, me: string): string
    requires |ms| > 0 && |me| > 0
  {
    RenderFrom(t, subs, ms, me, 0)
  }

  // One unfolding of `RenderFrom` per case; the proofs below go through these
  // rather than through the definitions.

  lemma RenderFromNoStart(t: string, subs: map<string, string>, ms: string, me: string, from: nat)
    requires |ms| > 0 && |me| > 0 && from <= |t|
    requires FindFrom(t, ms, from).None?
    ensures RenderFrom(t, subs, ms, me, from) == t[from..]
  {
  }

  lemma RenderFromStart(t: string, subs: map<string, string>, ms: string, me: string, from: nat, i: nat)
    requires |ms| > 0 && |me| > 0 && from <= |t|
    requires FindFrom(t, ms, from) == Some(i)
    ensures RenderFrom(t, subs, ms, me, from) == RenderMacroAt(t, subs, ms, me, from, i)
  {
  }

  lemma RenderMacroAtNoEnd(t: string, subs: map<string, string>, ms: string, me: string, from: nat, i: nat)
    requires |ms| > 0 && |me| > 0 && from <= i && i + |ms| <= |t|
    requires FindFrom(t, me, i + |ms|).None?
    ensures RenderMacroAt(t, subs, ms, me, from, i) == t[from..]
  {
  }

  lemma RenderMacroAtEnd(t: string, subs: map<string, string>, ms: string, me: string, from: nat, i: nat, j: nat)
    requires |ms| > 0 && |me| > 0 && from <= i && i + |ms| <= |t|
    requires FindFrom(t, me, i + |ms|) == Some(j)
    ensures RenderMacroAt(t, subs, ms, me, from, i)
         == t[from..i] + Replacement(t[i + |ms|..j], subs, ms, me) + RenderFrom(t, subs, ms, me, j + |me|)
  {
  }

  /** A complete macro at `i`..`j` after `from`: the text before it, its expansion, then the rest. */
  lemma MacroExpansion(t: string, subs: map<string, string>, ms: string, me: string, from: nat, i: nat, j: nat)
    requires |ms| > 0 && |me| > 0 && from <= |t|
    requires FindFrom(t, ms, from) == Some(i) && FindFrom(t, me, i + |ms|) == Some(j)
    ensures RenderFrom(t, subs, ms, me, from)
         == t[from..i] + Replacement(t[i + |ms|..j], subs, ms, me) + RenderFrom(t, subs, ms, me, j + |me|)
  {
    RenderFromStart(t, subs, ms, me, from, i);
    RenderMacroAtEnd(t, subs, ms, me, from, i, j);
  }

  /** A macro start at `i` with no end after it: everything from `from` on is copied. */
  lemma UnterminatedExpansion(t: string, subs: map<string, string>, ms: string, me: string, from: nat, i: nat)
    requires |ms| > 0 && |me| > 0 && from <= |t|
    requires FindFrom(t, ms, from) == Some(i) && FindFrom(t, me, i + |ms|).None?
    ensures RenderFrom(t, subs, ms, me, from) == t[from..]
  {
    RenderFromStart(t, subs, ms, me, from, i);
    RenderMacroAtNoEnd(t, subs, ms, me, from, i);
  }

  // The loop's account of its output: what has been appended so far, followed
  // by the rendering of the template from `index` on, is the whole rendering.
  // Each step lemma concludes with exactly the fact the loop needs next.

  lemma StartStep(t: string, subs: map<string, string>, ms: string, me: string)
    requires |ms| > 0 && |me| > 0
    ensures "" + RenderFrom(t, subs, ms, me, 0) == Render(t, subs, ms, me)
  {
  }

  /** A complete macro at `i`..`j`: appending its expansion and resuming after `j` keeps the account. */
  lemma MacroStep(t: string, subs: map<string, string>, ms: string, me: string, from: nat, i: nat, j: nat,
                  acc: string, whole: string, acc': string, next: nat)
    requires |ms| > 0 && |me| > 0 && from <= |t|
    requires FindFrom(t, ms, from) == Some(i) && FindFrom(t, me, i + |ms|) == Some(j)
    requires acc + RenderFrom(t, subs, ms, me, from) == whole
    requires acc' == acc + t[from..i] + Replacement(t[i + |ms|..j], subs, ms, me) && next == j + |me|
    ensures next <= |t| && acc' + RenderFrom(t, subs, ms, me, next) == whole
  {
    MacroExpansion(t, subs, ms, me, from, i, j);
    Regroup(acc, RenderFrom(t, subs, ms, me, from), t[from..i], Replacement(t[i + |ms|..j], subs, ms, me),
            RenderFrom(t, subs, ms, me, next), whole, acc');
  }

  /** Moving two pieces from the pending part of the account to the appended part. */
  lemma Regroup(acc: string, pending: string, a: string, b: string, rest: string, whole: string, acc': string)
    requires acc + pending == whole && pending == a + b + rest && acc' == acc + a + b
    ensures acc' + rest == whole
  {
    AppendAssoc4(acc, a, b, rest);
  }

  /** A macro start with no end: after the text before it, everything from it on is the output. */
  lemma UnterminatedStep(t: string, subs: map<string, string>, ms: string, me: string, from: nat, i: nat,
                         acc: string, whole: string, acc': string)
    requires |ms| > 0 && |me| > 0 && from <= |t|
    requires FindFrom(t, ms, from) == Some(i) && FindFrom(t, me, i + |ms|).None?
    requires acc + RenderFrom(t, subs, ms, me, from) == whole
    requires acc' == acc + t[from..i]
    ensures i <= |t| && acc' + t[i..] == whole
  {
    UnterminatedExpansion(t, subs, ms, me, from, i);
    SliceSplit(t, from, i, |t|);
    Regroup(acc, RenderFrom(t, subs, ms, me, from), t[from..i], "", t[i..], whole, acc');
  }

  /** No macro start: the rest of the template is the rest of the output. */
  lemma NoStartStep(t: string, subs: map<string, string>, ms: string, me: string, from: nat,
                    acc: string, whole: string)
    requires |ms| > 0 && |me| > 0 && from <= |t|
    requires FindFrom(t, ms, from).None?
    requires acc + RenderFrom(t, subs, ms, me, from) == whole
    ensures acc + t[from..] == whole
  {
    RenderFromNoStart(t, subs, ms, me, from);
  }

  /** `processMacros`: the `while true` loop that advances `index` and appends to `result`. */
  method ProcessMacros(p: Processor) returns (result: string)
    requires p.Valid()
    ensures result == Render(p.template, p.substitutions, p.macroStart, p.macroEnd)
  {
    var t, subs, ms, me := p.template, p.substitutions, p.macroStart, p.macroEnd;
    result := "";
    var index := 0;
    ghost var whole := Render(t, subs, ms, me);
    StartStep(t, subs, ms, me);
    while true
      invariant 0 <= index <= |t|
      invariant result + RenderFrom(t, subs, ms, me, index) == whole
      decreases |t| - index
    {
      var macroStartRange := FindFrom(t, ms, index);
      if macroStartRange.None? {
        NoStartStep(t, subs, ms, me, index, result, whole);
        break;
      }
      var startLower := macroStartRange.value;
      ghost var before := result;
      result := result + t[index..startLower];
      var macroEndRange := FindFrom(t, me, startLower + |ms|);
      if macroEndRange.None? {
        UnterminatedStep(t, subs, ms, me, index, startLower, before, whole, result);
        index := startLower;
        break;
      }
      var endLower := macroEndRange.value;
      var key := t[startLower + |ms|..endLower];
      result := result + Replacement(key, subs, ms, me);
      ghost var from := index;
      index := endLower + |me|;
      MacroStep(t, subs, ms, me, from, startLower, endLower, before, whole, result, index);
    }
    result := result + t[index..];
  }

  /** The `renderedText` property. */
  method RenderedText(p: Processor) returns (text: string)
    requires p.Valid()
    ensures text == Render(p.template, p.substitutions, p.macroStart, p.macroEnd)
  {
    text := ProcessMacros(p);
  }

  /** Static `renderedText(withTemplate:...)`: construct, then render; the construction error propagates. */
  method RenderedTextWithTemplate(template: string, substitutions: map<string, string>,
                                  macroStart: string, macroEnd: string)
    returns (r: Result<string, MacroProcessorError>)
    ensures r.Failure? <==> macroStart == "" || macroEnd == ""
    ensures r.Success? ==> r.value == Render(template, substitutions, macroStart, macroEnd)
  {
    var created := Create(template, substitutions, macroStart, macroEnd);
    match created {
      case Failure(e) => r := Failure(e);
      case Success(p) =>
        var text := RenderedText(p);
        r := Success(text);
    }
  }

  /** A template without a macro start is rendered unchanged. */
  lemma RenderWithoutMacroStart(t: string, subs: map<string, string>, ms: string, me: string)
    requires |ms| > 0 && |me| > 0 && !Contains(t, ms)
    ensures Render(t, subs, ms, me) == t
  {
    FindFromNoneIffAbsent(t, ms);
    RenderFromNoStart(t, subs, ms, me, 0);
  }

  /** A first macro start with no macro end after it: the whole template is copied through. */
  lemma RenderUnterminated(t: string, subs: map<string, string>, ms: string, me: string, i: nat)
    requires |ms| > 0 && |me| > 0
    requires FindFrom(t, ms, 0) == Some(i)
    requires !Contains(t[i + |ms|..], me)
    ensures Render(t, subs, ms, me) == t
  {
    FindFromNoneIffAbsentAfter(t, me, i + |ms|);
    UnterminatedExpansion(t, subs, ms, me, 0, i);
  }

  /** With no substitutions every macro is undefined, so the output is the template. */
  lemma {:induction false} RenderWithoutSubstitutions(t: string, subs: map<string, string>, ms: string, me: string, from: nat)
    requires |ms| > 0 && |me| > 0 && from <= |t| && subs == map[]
    ensures RenderFrom(t, subs, ms, me, from) == t[from..]
    decreases |t| - from
  {
    var start := FindFrom(t, ms, from);
    if start.None? {
      RenderFromNoStart(t, subs, ms, me, from);
    } else {
      var end := FindFrom(t, me, start.value + |ms|);
      if end.None? {
        RenderFromStart(t, subs, ms, me, from, start.value);
        RenderMacroAtNoEnd(t, subs, ms, me, from, start.value);
      } else {
        RenderWithoutSubstitutions(t, subs, ms, me, end.value + |me|);
        assert FindFrom(t, ms, from) == Some(start.value);
        assert FindFrom(t, me, start.value + |ms|) == Some(end.value);
        assert RenderFrom(t, map[], ms, me, end.value + |me|) == t[end.value + |me|..];
        UndefinedMacroStep(t, ms, me, from, start.value, end.value);
      }
    }
  }

  /** One undefined macro, given that the rest of the template renders to itself. */
  lemma UndefinedMacroStep(t: string, ms: string, me: string, from: nat, i: nat, j: nat)
    requires |ms| > 0 && |me| > 0 && from <= |t|
    requires FindFrom(t, ms, from) == Some(i) && FindFrom(t, me, i + |ms|) == Some(j)
    requires RenderFrom(t, map[], ms, me, j + |me|) == t[j + |me|..]
    ensures RenderFrom(t, map[], ms, me, from) == t[from..]
  {
    RenderFromStart(t, map[], ms, me, from, i);
    RenderMacroAtEnd(t, map[], ms, me, from, i, j);
    UndefinedMacroIsCopied(t, ms, me, from, i, j);
  }

  /** An undefined macro expands to its own text. */
  lemma UndefinedMacroIsCopied(t: string, ms: string, me: string, from: nat, i: nat, j: nat)
    requires from <= i && i + |ms| <= j && j + |me| <= |t|
    requires OccursAt(t, ms, i) && OccursAt(t, me, j)
    ensures t[from..i] + Replacement(t[i + |ms|..j], map[], ms, me) + t[j + |me|..] == t[from..]
  {
    SliceSplit(t, from, i, |t|);
    SliceSplit(t, i, i + |ms|, |t|);
    SliceSplit(t, i + |ms|, j, |t|);
    SliceSplit(t, j, j + |me|, |t|);
    OccursAtSlice(t, ms, i);
    OccursAtSlice(t, me, j);
    assert Replacement(t[i + |ms|..j], map[], ms, me) == ms + t[i + |ms|..j] + me;
  }

  /** In `t == pre + ms + key + me + post`, the first macro start is right after `pre`. */
  lemma DefinedMacroStart(t: string, pre: string, key: string, post: string, ms: string, me: string)
    requires |ms| > 0 && t == pre + ms + key + me + post
    requires !Contains(pre + ms[..|ms| - 1], ms)
    ensures FindFrom(t, ms, 0) == Some(|pre|)
  {
    var tail := key + me + post;
    SplitAfterStart(t, pre, ms, key, me, post, tail);
    FirstAfter(t, pre, ms, tail);
  }

  /** In `t == pre + ms + key + me + post`, the first macro end after the start is right after `key`. */
  lemma DefinedMacroEnd(t: string, pre: string, key: string, post: string, ms: string, me: string)
    requires |me| > 0 && t == pre + ms + key + me + post
    requires !Contains(key + me[..|me| - 1], me)
    ensures FindFrom(t, me, |pre| + |ms|) == Some(|pre| + |ms| + |key|)
  {
    var tail := key + me + post;
    SplitAfterStart(t, pre, ms, key, me, post, tail);
    FirstAfter(tail, key, me, post);
    ShiftedFind(t, pre + ms, tail, me, |pre| + |ms|, |key|);
  }

  lemma FirstAfter(u: string, pre: string, p: string, rest: string)
    requires |p| > 0 && u == pre + p + rest && !Contains(pre + p[..|p| - 1], p)
    ensures FindFrom(u, p, 0) == Some(|pre|)
  {
    FirstOccurrenceAfter(pre, p, rest);
  }

  lemma SplitAfterStart(t: string, pre: string, ms: string, key: string, me: string, post: string, tail: string)
    requires t == pre + ms + key + me + post && tail == key + me + post
    ensures t == pre + ms + tail && t == (pre + ms) + tail
  {
    AppendAssoc4(pre, ms, key + me, post);
    AppendAssoc(key, me, post);
  }

  lemma ShiftedFind(t: string, head: string, tail: string, p: string, n: nat, k: nat)
    requires t == head + tail && n == |head| && FindFrom(tail, p, 0) == Some(k)
    ensures FindFrom(t, p, n) == Some(n + k)
  {
    FindFromShift(head, tail, p, 0);
  }

  /**
   * A defined first macro is replaced by its value, and rendering resumes in
   * the template right after the closing delimiter: the value is never rescanned.
   */
  lemma FirstMacroDefined(t: string, subs: map<string, string>, ms: string, me: string, i: nat, j: nat)
    requires |ms| > 0 && |me| > 0
    requires FindFrom(t, ms, 0) == Some(i) && FindFrom(t, me, i + |ms|) == Some(j)
    requires t[i + |ms|..j] in subs
    ensures Render(t, subs, ms, me) == t[..i] + subs[t[i + |ms|..j]] + RenderFrom(t, subs, ms, me, j + |me|)
  {
    MacroExpansion(t, subs, ms, me, 0, i, j);
  }

  /** An undefined first macro is copied with its delimiters, and rendering resumes after it. */
  lemma FirstMacroUndefined(t: string, subs: map<string, string>, ms: string, me: string, i: nat, j: nat)
    requires |ms| > 0 && |me| > 0
    requires FindFrom(t, ms, 0) == Some(i) && FindFrom(t, me, i + |ms|) == Some(j)
    requires t[i + |ms|..j] !in subs
    ensures Render(t, subs, ms, me) == t[..j + |me|] + RenderFrom(t, subs, ms, me, j + |me|)
  {
    MacroExpansion(t, subs, ms, me, 0, i, j);
    UndefinedMacroText(t, ms, me, i, j);
  }

  lemma UndefinedMacroText(t: string, ms: string, me: string, i: nat, j: nat)
    requires i + |ms| <= j && j + |me| <= |t| && OccursAt(t, ms, i) && OccursAt(t, me, j)
    ensures t[..i] + (ms + t[i + |ms|..j] + me) == t[..j + |me|]
  {
    OccursAtSlice(t, ms, i);
    OccursAtSlice(t, me, j);
    SliceSplit(t, 0, i, j + |me|);
    SliceSplit(t, i, i + |ms|, j + |me|);
    SliceSplit(t, i + |ms|, j, j + |me|);
    assert t[..j + |me|] == t[0..j + |me|];
  }
}
