/** Reading the fact list (load_facts): the text of the fact file is split
    into lines, every line is stripped, and lines that strip to nothing are
    dropped. */
module Facts {
  import opened Text

  /** [ln.strip() for ln in lines if ln.strip()] */
  function Normalize(lines: seq<string>): (facts: seq<string>)
    ensures |facts| <= |lines|
    ensures forall k :: 0 <= k < |facts| ==> facts[k] != [] && IsStripped(facts[k])
  {
    if lines == [] then []
    else
      var s := Strip(lines[0]);
      (if s == [] then [] else [s]) + Normalize(lines[1..])
  }

  /** load_facts() on the text of the fact file. */
  function LoadFacts(text: string): (facts: seq<string>)
    ensures forall k :: 0 <= k < |facts| ==> facts[k] != [] && IsStripped(facts[k]) && NoLineBreak(facts[k])
  {
    var lines := SplitLines(text);
    SplitLinesNoBreaks(text);
    NormalizeNoLineBreak(lines);
    Normalize(lines)
  }

  /** Each loaded fact is its own strip: loading never leaves whitespace
      that a further strip() would remove. */
  lemma LoadedFactsAreStripped(text: string)
    ensures forall k :: 0 <= k < |LoadFacts(text)| ==> Strip(LoadFacts(text)[k]) == LoadFacts(text)[k]
  {
    FactsAreStripped(SplitLines(text));
  }

  /** Every fact is its own strip: it has no whitespace at either end. */
  lemma FactsAreStripped(lines: seq<string>)
    ensures forall k :: 0 <= k < |Normalize(lines)| ==> Strip(Normalize(lines)[k]) == Normalize(lines)[k]
  {
    forall k | 0 <= k < |Normalize(lines)| {
      StripOfStripped(Normalize(lines)[k]);
    }
  }

  lemma {:induction false} NormalizeNoLineBreak(lines: seq<string>)
    requires forall j :: 0 <= j < |lines| ==> NoLineBreak(lines[j])
    ensures forall k :: 0 <= k < |Normalize(lines)| ==> NoLineBreak(Normalize(lines)[k])
  {
    if lines != [] {
      StripKeepsNoLineBreak(lines[0]);
      NormalizeNoLineBreak(lines[1..]);
    }
  }

  /** Normalisation works line by line: the facts of a concatenation are the
      facts of its parts, in the same order. */
  lemma {:induction false} NormalizeAppend(a: seq<string>, b: seq<string>)
    ensures Normalize(a + b) == Normalize(a) + Normalize(b)
  {
    if a != [] {
      var s := Strip(a[0]);
      var first: seq<string> := if s == [] then [] else [s];
      assert (a + b)[0] == a[0];
      assert (a + b)[1..] == a[1..] + b;
      NormalizeAppend(a[1..], b);
      calc {
        Normalize(a + b);
        first + Normalize(a[1..] + b);
        first + (Normalize(a[1..]) + Normalize(b));
        (first + Normalize(a[1..])) + Normalize(b);
      }
    } else {
      assert a + b == b;
    }
  }

  lemma NormalizeSingle(line: string)
    ensures Normalize([line]) == if IsBlank(line) then [] else [Strip(line)]
  {
    assert [line][1..] == [];
  }

  /** A line contributes its stripped text, in place between the facts of
      the lines before it and those after it, exactly when it is not all
      whitespace; otherwise it is dropped. */
  lemma NormalizeSelects(before: seq<string>, line: string, after: seq<string>)
    ensures Normalize(before + [line] + after) ==
      Normalize(before) + (if IsBlank(line) then [] else [Strip(line)]) + Normalize(after)
  {
    NormalizeAppend(before + [line], after);
    NormalizeAppend(before, [line]);
    NormalizeSingle(line);
  }

  /** Lines that are all non-empty and stripped pass through unchanged. */
  lemma {:induction false} NormalizeKeeps(lines: seq<string>)
    requires forall j :: 0 <= j < |lines| ==> lines[j] != [] && IsStripped(lines[j])
    ensures Normalize(lines) == lines
  {
    if lines != [] {
      var rest := lines[1..];
      assert forall j :: 0 <= j < |rest| ==> rest[j] != [] && IsStripped(rest[j]) by {
        forall j | 0 <= j < |rest| ensures rest[j] != [] && IsStripped(rest[j]) {
          assert rest[j] == lines[j + 1];
        }
      }
      NormalizeKeeps(rest);
      StripOfStripped(lines[0]);
      assert lines == [lines[0]] + rest;
    }
  }

  /** A line list that is already normalised is left as it is, and only
      such a list is. */
  lemma NormalizeFixpoint(lines: seq<string>)
    ensures Normalize(lines) == lines <==>
      forall j :: 0 <= j < |lines| ==> lines[j] != [] && IsStripped(lines[j])
  {
    if forall j :: 0 <= j < |lines| ==> lines[j] != [] && IsStripped(lines[j]) {
      NormalizeKeeps(lines);
    }
  }

  /** Normalising twice changes nothing. */
  lemma NormalizeIdempotent(lines: seq<string>)
    ensures Normalize(Normalize(lines)) == Normalize(lines)
  {
    NormalizeFixpoint(Normalize(lines));
  }
}
