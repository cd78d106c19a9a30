/**
 * What the question card derives from a question's text (the heading, an
 * embedded image, a C++ code block) and how it marks each option once the
 * question is answered.
 */
module QuizCard {
  import opened Wrappers
  import opened Text

  const ImageMarker: string := "!["
  const CppFence: string := "```cpp"
  const Fence: string := "```"

  /** `text.includes('![')`. */
  predicate HasImage(text: string) {
    Contains(text, ImageMarker)
  }

  /**
   * The heading: with an image, the trimmed text before the first `![`;
   * otherwise the whole text.
   */
  function QuestionText(text: string): (r: string)
    ensures !HasImage(text) ==> r == text
    ensures HasImage(text) ==>
              && TrimOffset(Before(text, ImageMarker)) + |r| <= IndexOf(text, ImageMarker).value
              && text[TrimOffset(Before(text, ImageMarker))..TrimOffset(Before(text, ImageMarker)) + |r|] == r
              && (r == [] || (!IsSpace(r[0]) && !IsSpace(r[|r| - 1])))
              && IsBlank(text[..TrimOffset(Before(text, ImageMarker))])
              && IsBlank(text[TrimOffset(Before(text, ImageMarker)) + |r|..IndexOf(text, ImageMarker).value])
  {
    if HasImage(text) then
      var b := Before(text, ImageMarker);
      var a := TrimOffset(b);
      assert text[a..a + |Trim(b)|] == b[a..a + |Trim(b)|];
      assert text[..a] == b[..a];
      assert text[a + |Trim(b)|..|b|] == b[a + |Trim(b)|..];
      Trim(b)
    else text
  }

  /** No line terminator in `s[i..j]`: the stretch a regular-expression `.*` can cover. */
  predicate OnOneLine(s: string, i: int, j: int) {
    forall m :: 0 <= i <= m < j <= |s| ==> !IsLineTerminator(s[m])
  }

  /**
   * The first occurrence of `sep` from `from` on that is reached before
   * any line terminator: what a lazy `.*?` followed by `sep` finds.
   */
  function IndexOnLine(s: string, sep: string, from: nat): (r: Option<nat>)
    requires sep != [] && !IsLineTerminator(sep[0])
    decreases |s| - from
    ensures r.Some? ==> from <= r.value && OccursAt(s, sep, r.value) && OnOneLine(s, from, r.value)
    ensures r.Some? ==> forall k :: from <= k < r.value ==> !OccursAt(s, sep, k)
    ensures r.None? ==> forall k :: from <= k && OccursAt(s, sep, k) ==> !OnOneLine(s, from, k)
  {
    if from + |sep| > |s| then None
    else if s[from..from + |sep|] == sep then Some(from)
    else if IsLineTerminator(s[from]) then None
    else
      var r := IndexOnLine(s, sep, from + 1);
      assert forall k :: from + 1 <= k && OccursAt(s, sep, k) && OnOneLine(s, from, k) ==> OnOneLine(s, from + 1, k);
      r
  }

  /**
   * A `![...](url)` on one line: `![` at `k`, `](` at `j`, `)` at `m`, with
   * no line break in between.
   */
  predicate ImageLinkAt(s: string, k: int, j: int, m: int) {
    && OccursAt(s, ImageMarker, k) && k + 2 <= j && OccursAt(s, "](", j) && OnOneLine(s, k + 2, j)
    && j + 2 <= m && OccursAt(s, ")", m) && OnOneLine(s, j + 2, m)
  }

  /** Where a match of the image pattern puts its `![`, its `](` and its closing `)`. */
  datatype Link = Link(start: nat, open: nat, close: nat)

  /**
   * `/!\[.*?\]\((.*?)\)/` tried at a `![` at `k`: the first `](` on the
   * same line, then the first `)` on that line. When no `)` follows,
   * trying a later `](` cannot help, since it would search a part of the
   * same stretch: no link starts at `k` then.
   */
  function LinkAt(s: string, k: nat): (r: Option<Link>)
    requires OccursAt(s, ImageMarker, k)
    ensures r.Some? ==> r.value.start == k && ImageLinkAt(s, k, r.value.open, r.value.close)
    ensures r.Some? ==> forall i :: k + 2 <= i < r.value.open ==> !OccursAt(s, "](", i)
    ensures r.Some? ==> forall i :: r.value.open + 2 <= i < r.value.close ==> !OccursAt(s, ")", i)
    ensures r.None? ==> forall j, m :: !ImageLinkAt(s, k, j, m)
  {
    match IndexOnLine(s, "](", k + 2)
    case None => None
    case Some(j0) =>
      match IndexOnLine(s, ")", j0 + 2)
      case None =>
        assert forall j, m | ImageLinkAt(s, k, j, m) :: j0 + 2 <= m && OnOneLine(s, j0 + 2, m) by {
          forall j, m | ImageLinkAt(s, k, j, m) ensures j0 + 2 <= m && OnOneLine(s, j0 + 2, m) {
            assert j0 <= j;
            forall i | j0 + 2 <= i < m ensures !IsLineTerminator(s[i]) {
              if j <= i < j + 2 {
                assert s[j..j + 2] == "](";
              }
            }
          }
        }
        None
      case Some(m) => Some(Link(k, j0, m))
  }

  /**
   * The leftmost match from `from` on: the link at the first `![` at which
   * the pattern matches, none exactly when no image link starts there.
   */
  function FirstLinkFrom(s: string, from: nat): (r: Option<Link>)
    decreases |s| - from
    ensures r.Some? ==> from <= r.value.start && ImageLinkAt(s, r.value.start, r.value.open, r.value.close)
    ensures r.Some? ==> r.value == LinkAt(s, r.value.start).value
    ensures r.Some? ==> forall k, j, m :: from <= k < r.value.start ==> !ImageLinkAt(s, k, j, m)
    ensures r.None? ==> forall k, j, m :: from <= k ==> !ImageLinkAt(s, k, j, m)
  {
    match IndexOfFrom(s, ImageMarker, from)
    case None =>
      NoLinkWithoutMarker(s, from, |s| + 1);
      None
    case Some(k) =>
      var l := LinkAt(s, k);
      NoLinkWithoutMarker(s, from, k);
      if l.Some? then l
      else
        var r := FirstLinkFrom(s, k + 1);
        r
  }

  /** Every image link starts at a `![`. */
  lemma NoLinkWithoutMarker(s: string, lo: int, hi: int)
    requires forall k :: lo <= k < hi ==> !OccursAt(s, ImageMarker, k)
    ensures forall k, j, m :: lo <= k < hi ==> !ImageLinkAt(s, k, j, m)
  {
  }

  /**
   * `text.match(/!\[.*?\]\((.*?)\)/)?.[1]` when the text has an image:
   * the address between `](` and `)`; None for `null` and `undefined`.
   */
  function ImageUrl(text: string): (r: Option<string>)
    ensures r.Some? ==> HasImage(text)
    ensures r.Some? ==> forall i :: 0 <= i < |r.value| ==> r.value[i] != ')' && !IsLineTerminator(r.value[i])
  {
    if HasImage(text) then
      match FirstLinkFrom(text, 0)
      case None => None
      case Some(l) =>
        var u := text[l.open + 2..l.close];
        assert forall i :: 0 <= i < |u| ==> u[i] != ')' && !IsLineTerminator(u[i]) by {
          forall i | 0 <= i < |u| ensures u[i] != ')' && !IsLineTerminator(u[i]) {
            assert text[l.open + 2 + i..l.open + 2 + i + 1] == [u[i]];
            assert !OccursAt(text, ")", l.open + 2 + i);
          }
        }
        Some(u)
    else None
  }

  /**
   * There is an image address exactly when some `![...](...)` stands on
   * one line, and it is the address of such a link.
   */
  lemma ImageUrlIffLink(text: string)
    ensures ImageUrl(text).Some? <==> exists k: nat, j, m :: ImageLinkAt(text, k, j, m)
    ensures ImageUrl(text).Some? ==>
              var l := FirstLinkFrom(text, 0).value;
              ImageLinkAt(text, l.start, l.open, l.close) && ImageUrl(text).value == text[l.open + 2..l.close]
  {
    if exists k: nat, j, m :: ImageLinkAt(text, k, j, m) {
      var k: nat, j, m :| ImageLinkAt(text, k, j, m);
      assert OccursAt(text, ImageMarker, k);
    }
  }

  /**
   * The first `](` ends the alternative text, and the address runs to the
   * first `)` after it, even past a second `](`.
   */
  lemma ImageUrlNonGreedy()
    ensures ImageUrl("![a](b](c)") == Some("b](c")
  {
    var s := "![a](b](c)";
    assert s[0..2] == ImageMarker;
    assert IndexOfFrom(s, ImageMarker, 0) == Some(0);
    assert s[2..4][0] == 'a' && s[3..5] == "](";
    assert IndexOnLine(s, "](", 3) == Some(3);
    assert IndexOnLine(s, "](", 2) == Some(3);
    assert s[9..10] == ")";
    assert IndexOnLine(s, ")", 9) == Some(9);
    assert s[8..9][0] == 'c' && IndexOnLine(s, ")", 8) == Some(9);
    assert s[7..8][0] == '(' && IndexOnLine(s, ")", 7) == Some(9);
    assert s[6..7][0] == ']' && IndexOnLine(s, ")", 6) == Some(9);
    assert s[5..6][0] == 'b' && IndexOnLine(s, ")", 5) == Some(9);
    assert LinkAt(s, 0) == Some(Link(0, 3, 9));
    assert FirstLinkFrom(s, 0) == Some(Link(0, 3, 9));
    assert HasImage(s);
    assert s[5..9] == [s[5], s[6], s[7], s[8]] == "b](c";
  }

  /** `text.split('```cpp')[1].split('```')[0].trim()` of a text containing "```cpp". */
  function FencedCode(text: string): string
    requires Contains(text, CppFence)
  {
    Trim(Before(SecondPiece(text, CppFence), Fence))
  }

  /** `codeBlock`: the fenced code of a text without an image, else none. */
  function CodeBlock(text: string): (r: Option<string>)
    ensures r.Some? <==> !HasImage(text) && Contains(text, CppFence)
    ensures r.Some? ==> r.value == FencedCode(text)
  {
    if !HasImage(text) && Contains(text, CppFence) then Some(FencedCode(text)) else None
  }

  /** A prefix cut at `b` is the whole cut at `b` when the first `b` lies inside the prefix or starts right at its end. */
  lemma BeforeOfPrefix(s: string, b: string, n: nat)
    requires b != [] && n <= |s| && Contains(s, b)
    requires IndexOf(s, b).value + |b| <= n || IndexOf(s, b).value == n
    ensures Before(s[..n], b) == Before(s, b)
  {
    var f := IndexOfFrom(s, b, 0).value;
    var p := s[..n];
    forall k | 0 <= k < f ensures !OccursAt(p, b, k) {
      if OccursAt(p, b, k) {
        assert s[k..k + |b|] == p[k..k + |b|];
        assert OccursAt(s, b, k);
      }
    }
    if f + |b| <= n {
      assert p[f..f + |b|] == s[f..f + |b|];
      assert OccursAt(p, b, f);
      assert IndexOfFrom(p, b, 0) == Some(f);
    } else {
      assert forall k :: 0 <= k && OccursAt(p, b, k) ==> k < f;
      assert IndexOfFrom(p, b, 0).None?;
    }
  }

  /** A "```" starting one or two characters before `q` puts a backtick right before `q`. */
  lemma GluedFence(s: string, f: nat, q: nat)
    requires OccursAt(s, Fence, f) && q <= |s|
    ensures f < q < f + 3 ==> s[q - 1] == '`'
  {
    if f < q < f + 3 {
      assert s[q - 1] == s[f..f + 3][q - 1 - f];
    }
  }

  /**
   * The code block is the trimmed text between the first "```cpp" and the
   * next "```", unless a second "```cpp" is glued to a backtick, whose
   * backticks the split then keeps.
   */
  lemma CodeBetweenFences(text: string)
    requires Contains(text, CppFence)
    requires var rest := After(text, CppFence);
             Contains(rest, CppFence) ==> IndexOf(rest, CppFence).value == 0 || rest[IndexOf(rest, CppFence).value - 1] != '`'
    ensures FencedCode(text) == Trim(Before(After(text, CppFence), Fence))
  {
    var rest := After(text, CppFence);
    if Contains(rest, CppFence) {
      var q := IndexOf(rest, CppFence).value;
      assert rest[q..q + 3] == rest[q..q + 6][..3];
      assert OccursAt(rest, Fence, q);
      var f := IndexOf(rest, Fence).value;
      GluedFence(rest, f, q);
      assert Before(rest, CppFence) == rest[..q];
      BeforeOfPrefix(rest, Fence, q);
    } else {
      if Contains(rest, Fence) {
        var f := IndexOf(rest, Fence).value;
        assert !OccursAt(rest, CppFence, f);
      }
    }
  }

  /** How an option is marked: neutral, green (correct) or red (wrong). */
  datatype Mark = Neutral | Correct | Wrong

  /**
   * The option's class: neutral until answered; then the selected option
   * green if it is the correct one and red if not, the correct one green,
   * the rest neutral.
   */
  function OptionMark(isAnswered: bool, selectedAnswer: Option<int>, correctAnswer: int, index: int): (r: Mark)
    ensures !isAnswered ==> r == Neutral
    ensures isAnswered && index == correctAnswer ==> r == Correct
    ensures r == Wrong <==> isAnswered && selectedAnswer == Some(index) && index != correctAnswer
    ensures r == Correct <==> isAnswered && index == correctAnswer
  {
    if !isAnswered then Neutral
    else if selectedAnswer == Some(index) then
      (if selectedAnswer == Some(correctAnswer) then Correct else Wrong)
    else if index == correctAnswer then Correct
    else Neutral
  }

  /** At most one option is red, and only a selected one. */
  lemma AtMostOneWrong(isAnswered: bool, selectedAnswer: Option<int>, correctAnswer: int, i: int, j: int)
    requires OptionMark(isAnswered, selectedAnswer, correctAnswer, i) == Wrong
    requires OptionMark(isAnswered, selectedAnswer, correctAnswer, j) == Wrong
    ensures i == j && selectedAnswer == Some(i)
  {
  }

  /** A click on an option: the index passed to `onAnswerSelect`, or nothing once answered. */
  function OptionClick(isAnswered: bool, index: int): (r: Option<int>)
    ensures isAnswered ==> r.None?
    ensures !isAnswered ==> r == Some(index)
  {
    if isAnswered then None else Some(index)
  }

  /** `String.fromCharCode(65 + index)`: the option's letter. */
  function OptionLetter(index: nat): (c: char)
    requires 65 + index < 0xD800
    ensures c as int - 'A' as int == index
  {
    (65 + index) as char
  }

  /** Different options get different letters, the first four A to D. */
  lemma LettersDistinct(i: nat, j: nat)
    requires 65 + i < 0xD800 && 65 + j < 0xD800 && i != j
    ensures OptionLetter(i) != OptionLetter(j)
    ensures i < 4 ==> OptionLetter(i) == "ABCD"[i]
  {
  }
}
