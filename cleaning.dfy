/**
 The blank-line filter at the heart of `remove_blank_lines`: a line (in a text
 file) or a paragraph (in a document) is kept exactly when its stripped form is
 non-empty, and it is kept unchanged.
 */
module Cleaning {
  import opened Text

  /** The elements of `xs` that are not blank, in their original order. */
  function NonBlank(xs: seq<string>): (kept: seq<string>)
    ensures |kept| <= |xs|
    ensures forall k :: 0 <= k < |kept| ==> !IsBlank(kept[k])
  {
    if xs == [] then []
    else
      var last := xs[|xs| - 1];
      NonBlank(xs[..|xs| - 1]) + (if IsBlank(last) then [] else [last])
  }

  /** The positions of the non-blank elements of `xs`, in increasing order. */
  function KeptIndices(xs: seq<string>): seq<nat> {
    if xs == [] then []
    else
      var n := |xs| - 1;
      KeptIndices(xs[..n]) + (if IsBlank(xs[n]) then [] else [n])
  }

  /** `NonBlank` yields one element per kept position, namely the element at that position. */
  lemma {:induction false} NonBlankAtKeptIndices(xs: seq<string>)
    ensures |KeptIndices(xs)| == |NonBlank(xs)|
    ensures forall k :: 0 <= k < |KeptIndices(xs)| ==>
              KeptIndices(xs)[k] < |xs| && NonBlank(xs)[k] == xs[KeptIndices(xs)[k]]
    decreases |xs|
  {
    if xs != [] {
      var n := |xs| - 1;
      var init := xs[..n];
      NonBlankAtKeptIndices(init);
      assert forall i :: 0 <= i < n ==> xs[i] == init[i];
    }
  }

  /** The kept positions are in increasing order, so the kept elements keep their order. */
  lemma {:induction false} KeptIndicesIncrease(xs: seq<string>)
    ensures forall k :: 0 <= k < |KeptIndices(xs)| ==> KeptIndices(xs)[k] < |xs|
    ensures forall k, m :: 0 <= k < m < |KeptIndices(xs)| ==> KeptIndices(xs)[k] < KeptIndices(xs)[m]
    decreases |xs|
  {
    if xs != [] {
      KeptIndicesIncrease(xs[..|xs| - 1]);
    }
  }

  /** A position is kept exactly when the element there is not blank. */
  lemma {:induction false} KeptIndicesExact(xs: seq<string>)
    ensures forall i :: 0 <= i < |xs| ==> (!IsBlank(xs[i]) <==> i in KeptIndices(xs))
    decreases |xs|
  {
    if xs != [] {
      var n := |xs| - 1;
      var init := xs[..n];
      KeptIndicesExact(init);
      KeptIndicesIncrease(init);
      assert forall i :: 0 <= i < n ==> xs[i] == init[i];
    }
  }

  /** Filtering distributes over concatenation: the filter looks at each element on its own. */
  lemma {:induction false} NonBlankAppend(a: seq<string>, b: seq<string>)
    ensures NonBlank(a + b) == NonBlank(a) + NonBlank(b)
    decreases |b|
  {
    if b == [] {
      assert a + b == a;
    } else {
      var b' := b[..|b| - 1];
      assert (a + b)[..|a + b| - 1] == a + b';
      NonBlankAppend(a, b');
    }
  }

  /** Input without blank elements passes through unchanged, and only such input does. */
  lemma {:induction false} NonBlankIdentityIff(xs: seq<string>)
    ensures NonBlank(xs) == xs <==> forall k :: 0 <= k < |xs| ==> !IsBlank(xs[k])
    decreases |xs|
  {
    if xs != [] && forall k :: 0 <= k < |xs| ==> !IsBlank(xs[k]) {
      var init := xs[..|xs| - 1];
      NonBlankIdentityIff(init);
      assert forall k :: 0 <= k < |init| ==> init[k] == xs[k];
      assert init + [xs[|xs| - 1]] == xs;
    }
  }

  /** Filtering again changes nothing. */
  lemma NonBlankIdempotent(xs: seq<string>)
    ensures NonBlank(NonBlank(xs)) == NonBlank(xs)
  {
    NonBlankIdentityIff(NonBlank(xs));
  }

  /** Number of blank elements. */
  function BlankCount(xs: seq<string>): (n: nat)
    ensures n <= |xs|
  {
    if xs == [] then 0
    else BlankCount(xs[1..]) + (if IsBlank(xs[0]) then 1 else 0)
  }

  /** With N elements of which B are blank, exactly N - B are kept. */
  lemma {:induction false} NonBlankLength(xs: seq<string>)
    ensures |NonBlank(xs)| == |xs| - BlankCount(xs)
    decreases |xs|
  {
    if xs != [] {
      NonBlankLength(xs[1..]);
      NonBlankAppend([xs[0]], xs[1..]);
      assert [xs[0]] + xs[1..] == xs;
      assert NonBlank([xs[0]]) == if IsBlank(xs[0]) then [] else [xs[0]] by {
        assert [xs[0]][..0] == [];
      }
    }
  }

  /** Nothing is kept exactly when every element is blank. */
  lemma NonBlankEmptyIff(xs: seq<string>)
    ensures NonBlank(xs) == [] <==> forall k :: 0 <= k < |xs| ==> IsBlank(xs[k])
  {
    var idx := KeptIndices(xs);
    NonBlankAtKeptIndices(xs);
    KeptIndicesExact(xs);
    if exists i :: 0 <= i < |xs| && !IsBlank(xs[i]) {
      var i :| 0 <= i < |xs| && !IsBlank(xs[i]);
      assert i in idx;
    }
  }

  /** Filtering the lines of a file keeps them the lines of a file. */
  lemma {:induction false} NonBlankWellFormed(lines: seq<string>)
    requires WellFormedLines(lines)
    ensures WellFormedLines(NonBlank(lines))
    decreases |lines|
  {
    if lines != [] {
      var n := |lines| - 1;
      var init := lines[..n];
      assert WellFormedLines(init) by {
        forall k | 0 <= k < |init|
          ensures IsLine(init[k]) && (k < |init| - 1 ==> init[k][|init[k]| - 1] == '\n')
        {
          assert init[k] == lines[k];
        }
      }
      NonBlankWellFormed(init);
      var front := NonBlank(init);
      forall k | 0 <= k < |front|
        ensures IsLine(front[k]) && front[k][|front[k]| - 1] == '\n'
      {
        NonBlankAtKeptIndices(init);
        var j := KeptIndices(init)[k];
        assert lines[j] == init[j];
      }
    }
  }

  /** What the text branch writes for a file whose text is `text`. */
  function CleanText(text: string): string {
    Concat(NonBlank(SplitLines(text)))
  }

  /** The written text, read back line by line, is exactly the non-blank lines of the input. */
  lemma CleanTextLines(text: string)
    ensures SplitLines(CleanText(text)) == NonBlank(SplitLines(text))
  {
    NonBlankWellFormed(SplitLines(text));
    SplitLinesConcat(NonBlank(SplitLines(text)));
  }

  /** Cleaning a cleaned file changes nothing. */
  lemma CleanTextIdempotent(text: string)
    ensures CleanText(CleanText(text)) == CleanText(text)
  {
    CleanTextLines(text);
    NonBlankIdempotent(SplitLines(text));
  }

  /** A file with no blank line is written out character for character. */
  lemma CleanTextRoundTrip(text: string)
    requires forall k :: 0 <= k < |SplitLines(text)| ==> !IsBlank(SplitLines(text)[k])
    ensures CleanText(text) == text
  {
    NonBlankIdentityIff(SplitLines(text));
    ConcatSplitLines(text);
  }

  /** The example text splits into four lines, two of them blank. */
  lemma ExampleLines()
    ensures SplitLines("Hello\n\n\nWorld\n") == ["Hello\n", "\n", "\n", "World\n"]
  {
    var lines := ["Hello\n", "\n", "\n", "World\n"];
    assert lines[..3][..2] == lines[..2] && lines[..2][..1] == lines[..1] && lines[..1][..0] == [];
    assert Concat(lines[..1]) == "Hello\n";
    assert Concat(lines[..2]) == "Hello\n" + "\n";
    assert Concat(lines[..3]) == "Hello\n" + "\n" + "\n";
    assert lines[..|lines| - 1] == lines[..3];
    assert Concat(lines) == "Hello\n\n\nWorld\n";
    assert WellFormedLines(lines);
    SplitLinesConcat(lines);
  }

  /** Only the two visible lines of the example survive the filter. */
  lemma ExampleFilter()
    ensures NonBlank(["Hello\n", "\n", "\n", "World\n"]) == ["Hello\n", "World\n"]
  {
    var lines := ["Hello\n", "\n", "\n", "World\n"];
    NotBlankWhenVisible("Hello\n", 0);
    NotBlankWhenVisible("World\n", 0);
    assert IsBlank("\n");
    assert lines[..3][..2] == lines[..2] && lines[..2][..1] == lines[..1] && lines[..1][..0] == [];
    assert NonBlank(lines[..1]) == ["Hello\n"];
    assert NonBlank(lines[..3]) == ["Hello\n"];
    assert lines[..|lines| - 1] == lines[..3];
  }

  /** Writing the two surviving lines gives the expected text. */
  lemma ExampleOutput()
    ensures Concat(["Hello\n", "World\n"]) == "Hello\nWorld\n"
  {
    var kept := ["Hello\n", "World\n"];
    assert kept[..1][..0] == [];
    assert Concat(kept[..1]) == "Hello\n";
    assert kept[..|kept| - 1] == kept[..1];
    assert Concat(kept) == "Hello\n" + "World\n";
  }

  /** `"Hello\n\n\nWorld\n"` is cleaned to `"Hello\nWorld\n"`. */
  lemma CleanTextExample(text: string)
    requires text == "Hello\n\n\nWorld\n"
    ensures CleanText(text) == "Hello\nWorld\n"
  {
    ExampleLines();
    ExampleFilter();
    ExampleOutput();
  }
}
