/**
 * How a chat bubble lays out a message (`formatContent`): sections separated
 * by blank lines, each section split into lines, each line shown as a
 * numbered item, a bullet, or plain text followed by a line break unless it
 * ends its section.
 */
module MessageBubble {
  import opened Wrappers
  import opened Text

  datatype Line =
    | ListItem(text: string)                // indented, matches /^\d+\./
    | Bullet(text: string)                  // indented, starts with "-"
    | Plain(text: string, lineBreak: bool)  // followed by <br /> when lineBreak

  predicate IsDigit(c: char)
  {
    '0' <= c <= '9'
  }

  /** The length of the run of digits at the start of `s`. */
  function LeadingDigits(s: string): (n: nat)
    ensures n <= |s|
    ensures forall i :: 0 <= i < n ==> IsDigit(s[i])
    ensures n < |s| ==> !IsDigit(s[n])
  {
    if |s| > 0 && IsDigit(s[0]) then 1 + LeadingDigits(s[1..]) else 0
  }

  /** `/^\d+\./`: one or more digits, then a full stop. */
  predicate IsNumbered(line: string)
  {
    var n := LeadingDigits(line);
    0 < n < |line| && line[n] == '.'
  }

  /** The numbered test comes first, then the bullet test; anything else is plain. */
  function Classify(line: string, isLast: bool): (l: Line)
    ensures l.text == line
    ensures l.ListItem? <==> IsNumbered(line)
    ensures l.Bullet? <==> !IsNumbered(line) && "-" <= line
    ensures l.Plain? ==> l.lineBreak == !isLast
  {
    if IsNumbered(line) then ListItem(line)
    else if "-" <= line then Bullet(line)
    else Plain(line, !isLast)
  }

  /** The lines of one section, each classified; only the section's last line has no break after it. */
  function FormatSection(section: string): (r: seq<Line>)
    ensures |r| == |Split(section, "\n")|
    ensures forall i :: 0 <= i < |r| ==> r[i].text == Split(section, "\n")[i]
    ensures forall i :: 0 <= i < |r| && r[i].Plain? ==> (r[i].lineBreak <==> i < |r| - 1)
  {
    var lines := Split(section, "\n");
    seq(|lines|, i requires 0 <= i < |lines| => Classify(lines[i], i == |lines| - 1))
  }

  /** `formatContent`: nothing for empty content, else one list of lines per section. */
  function FormatContent(content: string): (r: Option<seq<seq<Line>>>)
    ensures r.None? <==> content == ""
    ensures r.Some? ==> |r.value| == |Split(content, "\n\n")|
    ensures r.Some? ==> forall i :: 0 <= i < |r.value| ==> r.value[i] == FormatSection(Split(content, "\n\n")[i])
  {
    if content == "" then None
    else
      var sections := Split(content, "\n\n");
      Some(seq(|sections|, i requires 0 <= i < |sections| => FormatSection(sections[i])))
  }

  function Texts(lines: seq<Line>): (r: seq<string>)
    ensures |r| == |lines| && forall i :: 0 <= i < |lines| ==> r[i] == lines[i].text
  {
    seq(|lines|, i requires 0 <= i < |lines| => lines[i].text)
  }

  /** The text a reader sees: lines joined by line breaks, sections by blank lines. */
  function Rendered(sections: seq<seq<Line>>): string
  {
    Join(seq(|sections|, i requires 0 <= i < |sections| => Join(Texts(sections[i]), "\n")), "\n\n")
  }

  /** Every line of every section is shown once, in order: the rendering gives back the content. */
  lemma RenderedRebuildsContent(content: string)
    requires content != ""
    ensures Rendered(FormatContent(content).value) == content
  {
    var sections := Split(content, "\n\n");
    var formatted := FormatContent(content).value;
    var texts := seq(|formatted|, i requires 0 <= i < |formatted| => Join(Texts(formatted[i]), "\n"));
    forall i | 0 <= i < |sections| ensures texts[i] == sections[i] {
      var lines := Split(sections[i], "\n");
      assert Texts(formatted[i]) == lines;
      JoinSplit(sections[i], "\n");
    }
    assert texts == sections;
    JoinSplit(content, "\n\n");
  }
}
