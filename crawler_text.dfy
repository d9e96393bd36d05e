/** `extract_text`: the page text, one stripped non-empty line per line. */
module TextExtractor {
  import opened Text

  /** `[line.strip() for line in lines]` */
  function StripAll(lines: seq<string>): (r: seq<string>)
    ensures |r| == |lines|
    ensures forall i :: 0 <= i < |r| ==> r[i] == Strip(lines[i])
    ensures forall i :: 0 <= i < |r| && '\n' !in lines[i] ==> '\n' !in r[i]
  {
    forall i | 0 <= i < |lines| ensures '\n' !in lines[i] ==> '\n' !in Strip(lines[i]) {
      StripSubstring(lines[i]);
    }
    seq(|lines|, i requires 0 <= i < |lines| => Strip(lines[i]))
  }

  /** `[line for line in lines if line]` */
  function KeepNonEmpty(lines: seq<string>): (r: seq<string>)
    ensures forall i :: 0 <= i < |r| ==> r[i] != "" && r[i] in lines
  {
    if |lines| == 0 then []
    else if lines[0] == "" then KeepNonEmpty(lines[1..])
    else [lines[0]] + KeepNonEmpty(lines[1..])
  }

  /** The lines `extract_text` keeps from the parser's text, in order. */
  function CleanLines(raw: string): (lines: seq<string>)
    ensures forall i :: 0 <= i < |lines| ==>
      lines[i] != "" && Trimmed(lines[i]) && '\n' !in lines[i]
  {
    var stripped := StripAll(Split(raw, '\n'));
    assert forall line :: line in stripped ==> Trimmed(line) && '\n' !in line;
    KeepNonEmpty(stripped)
  }

  /** `extract_text(html)`, given the parser's text of the page. */
  function ExtractText(raw: string): string {
    Join(CleanLines(raw), "\n")
  }

  lemma {:induction false} KeepNonEmptyAll(lines: seq<string>)
    requires forall i :: 0 <= i < |lines| ==> lines[i] != ""
    ensures KeepNonEmpty(lines) == lines
  {
    if |lines| > 0 {
      KeepNonEmptyAll(lines[1..]);
    }
  }

  /** Filtering a concatenation filters each part, in order. */
  lemma {:induction false} KeepNonEmptyAppend(a: seq<string>, b: seq<string>)
    ensures KeepNonEmpty(a + b) == KeepNonEmpty(a) + KeepNonEmpty(b)
  {
    if |a| > 0 {
      assert (a + b)[1..] == a[1..] + b;
      KeepNonEmptyAppend(a[1..], b);
    } else {
      assert a + b == b;
    }
  }

  lemma KeepNonEmptySingle(line: string)
    ensures KeepNonEmpty([line]) == if line == "" then [] else [line]
  {
    assert [line][1..] == [];
  }

  /** Every line is looked at in its place: a non-empty line is kept right
      after the lines kept before it, an empty one is dropped. */
  lemma {:induction false} KeepNonEmptyAt(lines: seq<string>, i: nat)
    requires i < |lines|
    ensures KeepNonEmpty(lines) ==
      KeepNonEmpty(lines[..i]) + (if lines[i] == "" then [] else [lines[i]]) + KeepNonEmpty(lines[i + 1..])
  {
    var before, here, after := lines[..i], [lines[i]], lines[i + 1..];
    assert lines == before + (here + after);
    KeepNonEmptyAppend(before, here + after);
    KeepNonEmptyAppend(here, after);
    KeepNonEmptySingle(lines[i]);
  }

  /** `extract_text` keeps every line of the parser's text that is non-empty
      after stripping, stripped, in its place among the other kept lines. */
  lemma CleanLinesKeepEvery(raw: string, i: nat)
    requires i < |Split(raw, '\n')|
    ensures var stripped := StripAll(Split(raw, '\n'));
      var line := Strip(Split(raw, '\n')[i]);
      CleanLines(raw) ==
        KeepNonEmpty(stripped[..i]) + (if line == "" then [] else [line]) + KeepNonEmpty(stripped[i + 1..])
  {
    KeepNonEmptyAt(StripAll(Split(raw, '\n')), i);
  }

  lemma StripAllTrimmed(lines: seq<string>)
    requires forall i :: 0 <= i < |lines| ==> Trimmed(lines[i])
    ensures StripAll(lines) == lines
  {
    forall i | 0 <= i < |lines| ensures Strip(lines[i]) == lines[i] {
      StripTrimmed(lines[i]);
    }
  }

  /** The output is empty exactly when no line survives; otherwise its lines
      are the surviving lines, each non-empty and without surrounding
      whitespace. */
  lemma ExtractTextLines(raw: string)
    ensures ExtractText(raw) == "" <==> CleanLines(raw) == []
    ensures ExtractText(raw) != "" ==>
      var out := Split(ExtractText(raw), '\n');
      out == CleanLines(raw) &&
      forall i :: 0 <= i < |out| ==> out[i] != "" && Trimmed(out[i])
  {
    var lines := CleanLines(raw);
    if lines != [] {
      assert |Join(lines, "\n")| >= |lines[0]| > 0 by {
        if |lines| > 1 { assert Join(lines, "\n") == lines[0] + "\n" + Join(lines[1..], "\n"); }
      }
      SplitJoin(lines, '\n');
    }
  }

  /** Cleaning cleaned text changes nothing. */
  lemma ExtractTextIdempotent(raw: string)
    ensures ExtractText(ExtractText(raw)) == ExtractText(raw)
  {
    var lines := CleanLines(raw);
    ExtractTextLines(raw);
    if lines == [] {
      assert Split("", '\n') == [""];
      assert StripAll([""]) == [""];
    } else {
      StripAllTrimmed(lines);
      KeepNonEmptyAll(lines);
    }
  }
}
