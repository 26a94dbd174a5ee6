/** The file viewer: one numbered row per line of the file's text. */
module CodePreview {
  import opened Strings

  /** A row: its 1-based number and the line's own text, before display. */
  datatype Row = Row(number: nat, line: string)

  /** `content.split("\n")`, numbered from 1. */
  function Rows(content: string): (rows: seq<Row>)
    ensures |rows| == multiset(content)['\n'] + 1
    ensures forall i :: 0 <= i < |rows| ==> rows[i].number == i + 1 && '\n' !in rows[i].line
  {
    var lines := Split(content, '\n');
    SplitCount(content, '\n');
    seq(|lines|, i requires 0 <= i < |lines| => Row(i + 1, lines[i]))
  }

  /** Joining the rows' lines with newlines gives the file's text back: no character is
      lost or added by the split. */
  lemma RowsRejoin(content: string)
    ensures Join(Lines(Rows(content)), "\n") == content
  {
    var lines := Split(content, '\n');
    SplitThenJoin(content, '\n');
    assert Lines(Rows(content)) == lines;
  }

  function Lines(rows: seq<Row>): seq<string>
  {
    seq(|rows|, i requires 0 <= i < |rows| => rows[i].line)
  }

  /** `line || " "`: an empty line is drawn as one space so that its row keeps its height. */
  function Display(row: Row): (text: string)
    ensures text != ""
    ensures row.line == "" ==> text == " "
    ensures row.line != "" ==> text == row.line
  {
    if row.line == "" then " " else row.line
  }

  /** Digits in the largest line number, `String(lines.length).length`. */
  function LineNumWidth(content: string): nat
  {
    |NatToString(|Rows(content)|)|
  }

  /** Pixel width of the line-number gutter. */
  function GutterWidth(content: string): (px: nat)
  {
    LineNumWidth(content) * 8 + 24
  }

  /** The gutter gets eight pixels per digit of the largest line number on top of a fixed 24,
      and that digit count is the exact one: `10^(w-1) <= rows < 10^w`. */
  lemma GutterFitsLineNumbers(content: string)
    ensures var w := LineNumWidth(content);
      && GutterWidth(content) == 8 * w + 24 && w >= 1
      && Pow10(w - 1) <= |Rows(content)| < Pow10(w)
  {
    var n := |Rows(content)|;
    var w := |NatToString(n)|;
    assert LineNumWidth(content) == w;
    assert GutterWidth(content) == 8 * w + 24;
    assert n >= 1;
    NatToStringLength(n);
  }
}
