/** `create_pdf` of src/pdf_generator.py, as the sequence of text lines the
    study guide is made of. Fonts, cell sizes, spacing, automatic page breaks
    and the byte output are FPDF layout and are not modelled; what is kept is
    which text goes into the document, in which order, through which call. */
module PdfGenerator {
  import opened Knowledge
  import opened Latin1
  import opened Decimal

  /** The call that puts a line into the document. */
  datatype Style =
    | Header      // `PDF.header`, printed at the top of each page `add_page` starts
    | Chapter     // `chapter_title`
    | Body        // `chapter_body`, which sanitises its whole text
    | Question    // the bold `multi_cell` of a quiz question
    | Choice      // the `cell` of one option
    | KeyHeading  // the italic `cell` that opens the answer key
    | Answer      // the `cell` of one answer

  datatype Line = Line(style: Style, text: string)

  const HeaderText := "VidGraph.ai - Study Guide"
  const SummaryTitle := "1. Executive Summary"
  const ConceptsTitle := "2. Key Concepts (Knowledge Graph)"
  const QuizTitle := "3. Practice Quiz"
  const AnswerKeyTitle := "--- Answer Key ---"
  const CorePrefix := "[CORE]"
  const PlainPrefix := "-"
  const ChoiceIndent := "   - "

  /** The page header and the section titles are already Latin-1. */
  lemma TitlesAreLatin1()
    ensures IsLatin1(HeaderText) && IsLatin1(SummaryTitle) && IsLatin1(ConceptsTitle)
    ensures IsLatin1(QuizTitle) && IsLatin1(AnswerKeyTitle)
  {
    HeaderIsLatin1();
    ConceptsTitleIsLatin1();
  }

  lemma HeaderIsLatin1()
    ensures IsLatin1(HeaderText)
  {
  }

  lemma ConceptsTitleIsLatin1()
    ensures IsLatin1(ConceptsTitle)
  {
  }

  /** The fixed prefixes of node and option lines are already Latin-1. */
  lemma PrefixesAreLatin1()
    ensures IsLatin1(CorePrefix + " ") && IsLatin1(PlainPrefix + " ") && IsLatin1(ChoiceIndent)
  {
  }

  /** `f"Q{i+1}: "`, the number shared by a quiz question and its answer. */
  function QuizLabel(i: nat): (s: string)
    ensures IsLatin1(s)
  {
    var digits := ToDecimal(i + 1);
    assert forall j :: 0 <= j < |digits| ==> IsLatin1Char(digits[j]);
    "Q" + digits + ": "
  }

  /** The number in a label reads back as `i + 1`, so distinct quiz items
      carry distinct labels. */
  lemma QuizLabelReadsBack(i: nat)
    ensures var s := QuizLabel(i);
            && |s| >= 4 && s[0] == 'Q' && s[|s| - 2..] == ": "
            && IsDigits(s[1..|s| - 2]) && ParseDecimal(s[1..|s| - 2]) == i + 1
  {
    var s := QuizLabel(i);
    assert s[1..|s| - 2] == ToDecimal(i + 1);
    ParseToDecimal(i + 1);
  }

  lemma QuizLabelInjective(i: nat, j: nat)
    ensures QuizLabel(i) == QuizLabel(j) <==> i == j
  {
    QuizLabelReadsBack(i);
    QuizLabelReadsBack(j);
  }

  // ---------------------------------------------------------------------------
  // The lines of each section

  /** `f"{prefix} {label}"` through `chapter_body`: the fixed prefix survives
      sanitising, so only the label can change. */
  function ConceptLine(n: Node): (l: Line)
    ensures l.style == Body
    ensures IsCore(n) ==> l.text == "[CORE] " + Sanitize(n.name)
    ensures !IsCore(n) ==> l.text == "- " + Sanitize(n.name)
    ensures IsLatin1(l.text)
  {
    var prefix := (if IsCore(n) then CorePrefix else PlainPrefix) + " ";
    PrefixesAreLatin1();
    SanitizeConcat(prefix, n.name);
    SanitizeFixesExactlyLatin1(prefix);
    Line(Body, Sanitize(prefix + n.name))
  }

  /** The node loop of section 2: one line per node, in node order. */
  function ConceptLines(nodes: seq<Node>): (r: seq<Line>)
    ensures |r| == |nodes|
    ensures forall i :: 0 <= i < |nodes| ==> r[i] == ConceptLine(nodes[i])
    decreases |nodes|
  {
    if |nodes| == 0 then [] else [ConceptLine(nodes[0])] + ConceptLines(nodes[1..])
  }

  /** `f"   - {opt_clean}"`. */
  function ChoiceText(option: string): (t: string)
    ensures IsLatin1(t)
  {
    PrefixesAreLatin1();
    Latin1Concat(ChoiceIndent, Sanitize(option));
    ChoiceIndent + Sanitize(option)
  }

  /** The option loop of one quiz item: one line per option, in option order. */
  function ChoiceLines(options: seq<string>): (r: seq<Line>)
    ensures |r| == |options|
    ensures forall j :: 0 <= j < |options| ==> r[j] == Line(Choice, ChoiceText(options[j]))
    decreases |options|
  {
    if |options| == 0 then [] else [Line(Choice, ChoiceText(options[0]))] + ChoiceLines(options[1..])
  }

  /** `f"Q{i+1}: {q_text}"` with the sanitised question. */
  function QuestionText(i: nat, q: QuizItem): (t: string)
    ensures IsLatin1(t)
  {
    Latin1Concat(QuizLabel(i), Sanitize(q.question));
    QuizLabel(i) + Sanitize(q.question)
  }

  /** `f"Q{i+1}: {ans_clean}"` with the sanitised answer. */
  function AnswerText(i: nat, q: QuizItem): (t: string)
    ensures IsLatin1(t)
  {
    Latin1Concat(QuizLabel(i), Sanitize(q.answer));
    QuizLabel(i) + Sanitize(q.answer)
  }

  /** The quiz loop of section 3 for items numbered from `k`: for each item its
      question line, then its option lines. */
  function QuizLines(quiz: seq<QuizItem>, k: nat): (r: seq<Line>)
    ensures |quiz| == 0 <==> r == []
    ensures |quiz| > 0 ==> r[0] == Line(Question, QuestionText(k, quiz[0]))
    ensures forall i :: 0 <= i < |r| ==> r[i].style in {Question, Choice}
    decreases |quiz|
  {
    if |quiz| == 0 then []
    else [Line(Question, QuestionText(k, quiz[0]))] + ChoiceLines(quiz[0].options) + QuizLines(quiz[1..], k + 1)
  }

  /** The answer-key loop for items numbered from `k`: one line per item. */
  function AnswerLines(quiz: seq<QuizItem>, k: nat): (r: seq<Line>)
    ensures |r| == |quiz|
    ensures forall i :: 0 <= i < |quiz| ==> r[i] == Line(Answer, AnswerText(k + i, quiz[i]))
    decreases |quiz|
  {
    if |quiz| == 0 then [] else [Line(Answer, AnswerText(k, quiz[0]))] + AnswerLines(quiz[1..], k + 1)
  }

  /** Page 1 up to the node list: header, summary section, concepts title. */
  function Opening(summary: string): seq<Line>
  {
    [Line(Header, HeaderText), Line(Chapter, SummaryTitle), Line(Body, Sanitize(summary)), Line(Chapter, ConceptsTitle)]
  }

  /** The explicit second page: header and quiz title. */
  function QuizOpening(): seq<Line>
  {
    [Line(Header, HeaderText), Line(Chapter, QuizTitle)]
  }

  /** `create_pdf(summary_text, graph_data, quiz_data)`: the opening of page 1,
      the node lines, the second page's opening, the quiz, the answer-key
      heading and the answer lines. */
  function CreatePdf(summary: string, graph: Graph, quiz: seq<QuizItem>): (doc: seq<Line>)
  {
    Opening(summary) + ConceptLines(graph.nodes) + QuizOpening() + QuizLines(quiz, 0)
      + [Line(KeyHeading, AnswerKeyTitle)] + AnswerLines(quiz, 0)
  }

  /** Every text of `lines` is Latin-1. */
  predicate AllLatin1(lines: seq<Line>)
  {
    forall i :: 0 <= i < |lines| ==> IsLatin1(lines[i].text)
  }

  lemma AllLatin1Concat(a: seq<Line>, b: seq<Line>)
    requires AllLatin1(a) && AllLatin1(b)
    ensures AllLatin1(a + b)
  {
    forall i | 0 <= i < |a + b|
      ensures IsLatin1((a + b)[i].text)
    {
      if i >= |a| {
        assert (a + b)[i] == b[i - |a|];
      }
    }
  }

  /** Every line of the quiz loop is Latin-1. */
  lemma {:induction false} QuizLinesLatin1(quiz: seq<QuizItem>, k: nat)
    ensures AllLatin1(QuizLines(quiz, k))
    decreases |quiz|
  {
    if |quiz| > 0 {
      QuizLinesLatin1(quiz[1..], k + 1);
      var question := [Line(Question, QuestionText(k, quiz[0]))];
      var choices := ChoiceLines(quiz[0].options);
      assert AllLatin1(question);
      assert AllLatin1(choices);
      AllLatin1Concat(question, choices);
      AllLatin1Concat(question + choices, QuizLines(quiz[1..], k + 1));
    }
  }

  /** Every text in the document is Latin-1, so the final `encode('latin-1')`
      of the output cannot fail on any of it. */
  lemma DocumentIsLatin1(summary: string, graph: Graph, quiz: seq<QuizItem>)
    ensures AllLatin1(CreatePdf(summary, graph, quiz))
  {
    TitlesAreLatin1();
    var a := Opening(summary);
    var b := ConceptLines(graph.nodes);
    var c := QuizOpening();
    var d := QuizLines(quiz, 0);
    var e := [Line(KeyHeading, AnswerKeyTitle)];
    var f := AnswerLines(quiz, 0);
    assert AllLatin1(a);
    assert AllLatin1(b);
    assert AllLatin1(c);
    QuizLinesLatin1(quiz, 0);
    assert AllLatin1(e);
    assert AllLatin1(f);
    AllLatin1Concat(a, b);
    AllLatin1Concat(a + b, c);
    AllLatin1Concat(a + b + c, d);
    AllLatin1Concat(a + b + c + d, e);
    AllLatin1Concat(a + b + c + d + e, f);
  }

  // ---------------------------------------------------------------------------
  // Reading the document back

  /** The lines made by the given calls, in document order. */
  function Keep(lines: seq<Line>, styles: set<Style>): (r: seq<Line>)
    ensures |r| <= |lines|
    decreases |lines|
  {
    if |lines| == 0 then []
    else if lines[0].style in styles then [lines[0]] + Keep(lines[1..], styles)
    else Keep(lines[1..], styles)
  }

  function LineTexts(lines: seq<Line>): (r: seq<string>)
    ensures |r| == |lines|
    ensures forall i :: 0 <= i < |lines| ==> r[i] == lines[i].text
    decreases |lines|
  {
    if |lines| == 0 then [] else [lines[0].text] + LineTexts(lines[1..])
  }

  lemma {:induction false} KeepConcat(a: seq<Line>, b: seq<Line>, styles: set<Style>)
    ensures Keep(a + b, styles) == Keep(a, styles) + Keep(b, styles)
    decreases |a|
  {
    if |a| == 0 {
      assert a + b == b;
    } else {
      assert (a + b)[1..] == a[1..] + b;
      KeepConcat(a[1..], b, styles);
    }
  }

  lemma {:induction false} KeepAll(lines: seq<Line>, styles: set<Style>)
    requires forall i :: 0 <= i < |lines| ==> lines[i].style in styles
    ensures Keep(lines, styles) == lines
    decreases |lines|
  {
    if |lines| > 0 {
      KeepAll(lines[1..], styles);
    }
  }

  lemma {:induction false} KeepNone(lines: seq<Line>, styles: set<Style>)
    requires forall i :: 0 <= i < |lines| ==> lines[i].style !in styles
    ensures Keep(lines, styles) == []
    decreases |lines|
  {
    if |lines| > 0 {
      KeepNone(lines[1..], styles);
    }
  }

  /** Keeping lines from six consecutive parts, part by part. */
  lemma KeepSix(a: seq<Line>, b: seq<Line>, c: seq<Line>, d: seq<Line>, e: seq<Line>, f: seq<Line>, styles: set<Style>)
    ensures Keep(a + b + c + d + e + f, styles)
         == Keep(a, styles) + Keep(b, styles) + Keep(c, styles) + Keep(d, styles) + Keep(e, styles) + Keep(f, styles)
  {
    KeepConcat(a + b + c + d + e, f, styles);
    KeepConcat(a + b + c + d, e, styles);
    KeepConcat(a + b + c, d, styles);
    KeepConcat(a + b, c, styles);
    KeepConcat(a, b, styles);
  }

  /** Keeping the lines of a one-line document. */
  lemma KeepOne(l: Line, styles: set<Style>)
    ensures Keep([l], styles) == if l.style in styles then [l] else []
  {
    assert [l][1..] == [];
  }

  /** Which of the opening lines the given calls made. */
  lemma KeepOpening(summary: string, styles: set<Style>)
    ensures Keep(Opening(summary), styles)
         == (if Header in styles then [Line(Header, HeaderText)] else [])
            + (if Chapter in styles then [Line(Chapter, SummaryTitle)] else [])
            + (if Body in styles then [Line(Body, Sanitize(summary))] else [])
            + (if Chapter in styles then [Line(Chapter, ConceptsTitle)] else [])
  {
    var o := Opening(summary);
    assert o == [o[0]] + [o[1]] + [o[2]] + [o[3]];
    KeepConcat([o[0]] + [o[1]] + [o[2]], [o[3]], styles);
    KeepConcat([o[0]] + [o[1]], [o[2]], styles);
    KeepConcat([o[0]], [o[1]], styles);
    KeepOne(o[0], styles);
    KeepOne(o[1], styles);
    KeepOne(o[2], styles);
    KeepOne(o[3], styles);
  }

  /** Which of the second-page opening lines the given calls made. */
  lemma KeepQuizOpening(styles: set<Style>)
    ensures Keep(QuizOpening(), styles)
         == (if Header in styles then [Line(Header, HeaderText)] else [])
            + (if Chapter in styles then [Line(Chapter, QuizTitle)] else [])
  {
    var o := QuizOpening();
    assert o == [o[0]] + [o[1]];
    KeepConcat([o[0]], [o[1]], styles);
    KeepOne(o[0], styles);
    KeepOne(o[1], styles);
  }

  /** The node lines are all made by `chapter_body`. */
  lemma KeepConcepts(nodes: seq<Node>, styles: set<Style>)
    ensures Keep(ConceptLines(nodes), styles) == if Body in styles then ConceptLines(nodes) else []
  {
    if Body in styles {
      KeepAll(ConceptLines(nodes), styles);
    } else {
      KeepNone(ConceptLines(nodes), styles);
    }
  }

  /** The quiz loop makes only question and option lines. */
  lemma KeepQuizLines(quiz: seq<QuizItem>, k: nat, styles: set<Style>)
    requires Question in styles <==> Choice in styles
    ensures Keep(QuizLines(quiz, k), styles) == if Question in styles then QuizLines(quiz, k) else []
  {
    if Question in styles {
      KeepAll(QuizLines(quiz, k), styles);
    } else {
      KeepNone(QuizLines(quiz, k), styles);
    }
  }

  /** The answer-key loop makes only answer lines. */
  lemma KeepAnswers(quiz: seq<QuizItem>, k: nat, styles: set<Style>)
    ensures Keep(AnswerLines(quiz, k), styles) == if Answer in styles then AnswerLines(quiz, k) else []
  {
    if Answer in styles {
      KeepAll(AnswerLines(quiz, k), styles);
    } else {
      KeepNone(AnswerLines(quiz, k), styles);
    }
  }

  /** Which lines of the whole document the given calls made, section by
      section; the quiz loop's question and option lines are kept or dropped
      together. */
  lemma KeepDocument(summary: string, graph: Graph, quiz: seq<QuizItem>, styles: set<Style>)
    requires Question in styles <==> Choice in styles
    ensures Keep(CreatePdf(summary, graph, quiz), styles)
         == ((if Header in styles then [Line(Header, HeaderText)] else [])
             + (if Chapter in styles then [Line(Chapter, SummaryTitle)] else [])
             + (if Body in styles then [Line(Body, Sanitize(summary))] else [])
             + (if Chapter in styles then [Line(Chapter, ConceptsTitle)] else []))
            + (if Body in styles then ConceptLines(graph.nodes) else [])
            + ((if Header in styles then [Line(Header, HeaderText)] else [])
             + (if Chapter in styles then [Line(Chapter, QuizTitle)] else []))
            + (if Question in styles then QuizLines(quiz, 0) else [])
            + (if KeyHeading in styles then [Line(KeyHeading, AnswerKeyTitle)] else [])
            + (if Answer in styles then AnswerLines(quiz, 0) else [])
  {
    KeepSix(Opening(summary), ConceptLines(graph.nodes), QuizOpening(), QuizLines(quiz, 0),
            [Line(KeyHeading, AnswerKeyTitle)], AnswerLines(quiz, 0), styles);
    KeepOpening(summary, styles);
    KeepConcepts(graph.nodes, styles);
    KeepQuizOpening(styles);
    KeepQuizLines(quiz, 0, styles);
    KeepOne(Line(KeyHeading, AnswerKeyTitle), styles);
    KeepAnswers(quiz, 0, styles);
  }

  /** The title lines are the three chapter titles and the answer-key heading. */
  lemma KeptHeadings(summary: string, graph: Graph, quiz: seq<QuizItem>)
    ensures Keep(CreatePdf(summary, graph, quiz), {Chapter, KeyHeading})
         == [Line(Chapter, SummaryTitle), Line(Chapter, ConceptsTitle), Line(Chapter, QuizTitle), Line(KeyHeading, AnswerKeyTitle)]
  {
    var styles := {Chapter, KeyHeading};
    KeepDocument(summary, graph, quiz, styles);
  }

  /** The page header is printed twice: on the first page and on the page
      the quiz starts. */
  lemma KeptPageHeaders(summary: string, graph: Graph, quiz: seq<QuizItem>)
    ensures Keep(CreatePdf(summary, graph, quiz), {Header}) == [Line(Header, HeaderText), Line(Header, HeaderText)]
  {
    KeepDocument(summary, graph, quiz, {Header});
  }

  /** The section titles come in this fixed order, whatever the input. */
  lemma SectionOrder(summary: string, graph: Graph, quiz: seq<QuizItem>)
    ensures LineTexts(Keep(CreatePdf(summary, graph, quiz), {Chapter, KeyHeading}))
         == [SummaryTitle, ConceptsTitle, QuizTitle, AnswerKeyTitle]
  {
    KeptHeadings(summary, graph, quiz);
  }

  /** The body lines are the summary's and the node lines. */
  lemma KeptBodies(summary: string, graph: Graph, quiz: seq<QuizItem>)
    ensures Keep(CreatePdf(summary, graph, quiz), {Body})
         == [Line(Body, Sanitize(summary))] + ConceptLines(graph.nodes)
  {
    var l := Line(Body, Sanitize(summary));
    var nodeLines := ConceptLines(graph.nodes);
    KeepDocument(summary, graph, quiz, {Body});
    assert Keep(CreatePdf(summary, graph, quiz), {Body}) == ([] + [] + [l] + []) + nodeLines + ([] + []) + [] + [] + [];
    assert [] + [] + [l] + [] == [l];
  }

  /** The body texts are the sanitised summary followed by one line per node,
      in node order: `"[CORE] "` plus the label for a core node, `"- "` plus
      the label for any other, including one without `type`. */
  lemma ConceptSection(summary: string, graph: Graph, quiz: seq<QuizItem>)
    ensures var bodies := LineTexts(Keep(CreatePdf(summary, graph, quiz), {Body}));
            && |bodies| == |graph.nodes| + 1
            && bodies[0] == Sanitize(summary)
            && forall i :: 0 <= i < |graph.nodes| ==>
                 bodies[i + 1] == (if IsCore(graph.nodes[i]) then "[CORE] " else "- ") + Sanitize(graph.nodes[i].name)
  {
    KeptBodies(summary, graph, quiz);
    var kept := Keep(CreatePdf(summary, graph, quiz), {Body});
    var concepts := ConceptLines(graph.nodes);
    var bodies := LineTexts(kept);
    forall i | 0 <= i < |graph.nodes|
      ensures bodies[i + 1] == (if IsCore(graph.nodes[i]) then "[CORE] " else "- ") + Sanitize(graph.nodes[i].name)
    {
      assert kept[i + 1] == concepts[i] == ConceptLine(graph.nodes[i]);
    }
  }

  /** The answer lines are exactly the answer-key loop's lines. */
  lemma KeptAnswers(summary: string, graph: Graph, quiz: seq<QuizItem>)
    ensures Keep(CreatePdf(summary, graph, quiz), {Answer}) == AnswerLines(quiz, 0)
  {
    KeepDocument(summary, graph, quiz, {Answer});
  }

  /** The answer key has one line per quiz item, numbered like the quiz. */
  lemma AnswerKeySection(summary: string, graph: Graph, quiz: seq<QuizItem>)
    ensures var answers := LineTexts(Keep(CreatePdf(summary, graph, quiz), {Answer}));
            && |answers| == |quiz|
            && forall i :: 0 <= i < |quiz| ==> answers[i] == QuizLabel(i) + Sanitize(quiz[i].answer)
  {
    KeptAnswers(summary, graph, quiz);
    var answers := LineTexts(AnswerLines(quiz, 0));
    forall i | 0 <= i < |quiz|
      ensures answers[i] == QuizLabel(i) + Sanitize(quiz[i].answer)
    {
      assert AnswerLines(quiz, 0)[i] == Line(Answer, AnswerText(i, quiz[i]));
    }
  }

  /** A quiz item as the reader sees it: its question line and option lines. */
  datatype QuizView = QuizView(question: string, options: seq<string>)

  /** The texts of the option lines at the front of `lines`. */
  function LeadingChoices(lines: seq<Line>): (r: seq<string>)
    ensures |r| <= |lines|
    decreases |lines|
  {
    if |lines| == 0 || lines[0].style != Choice then []
    else [lines[0].text] + LeadingChoices(lines[1..])
  }

  /** Group question and option lines into items: each question line with the
      option lines that directly follow it. */
  function ReadQuiz(lines: seq<Line>): seq<QuizView>
    decreases |lines|
  {
    if |lines| == 0 then []
    else if lines[0].style != Question then ReadQuiz(lines[1..])
    else
      var options := LeadingChoices(lines[1..]);
      [QuizView(lines[0].text, options)] + ReadQuiz(lines[1 + |options|..])
  }

  /** What item `i` should read as: `Q{i+1}: ` and its sanitised question, and
      its sanitised options in order, each behind the indent. */
  function ItemView(i: nat, q: QuizItem): (v: QuizView)
    ensures v.question == QuizLabel(i) + Sanitize(q.question)
    ensures |v.options| == |q.options|
    ensures forall j :: 0 <= j < |q.options| ==> v.options[j] == ChoiceIndent + Sanitize(q.options[j])
  {
    QuizView(QuestionText(i, q), LineTexts(ChoiceLines(q.options)))
  }

  /** The views of items numbered from `k`, in order. */
  function ItemViews(quiz: seq<QuizItem>, k: nat): (r: seq<QuizView>)
    ensures |r| == |quiz|
    ensures forall i :: 0 <= i < |quiz| ==> r[i] == ItemView(k + i, quiz[i])
    decreases |quiz|
  {
    if |quiz| == 0 then [] else [ItemView(k, quiz[0])] + ItemViews(quiz[1..], k + 1)
  }

  lemma {:induction false} LeadingChoicesOf(options: seq<string>, rest: seq<Line>)
    requires rest == [] || rest[0].style != Choice
    ensures LeadingChoices(ChoiceLines(options) + rest) == LineTexts(ChoiceLines(options))
    decreases |options|
  {
    var lines := ChoiceLines(options) + rest;
    if |options| == 0 {
      assert lines == rest;
    } else {
      assert lines[1..] == ChoiceLines(options[1..]) + rest;
      LeadingChoicesOf(options[1..], rest);
    }
  }

  /** Reading the quiz loop's lines takes the first item, then reads on
      from the next question. */
  lemma ReadQuizStep(quiz: seq<QuizItem>, k: nat)
    requires |quiz| > 0
    ensures ReadQuiz(QuizLines(quiz, k)) == [ItemView(k, quiz[0])] + ReadQuiz(QuizLines(quiz[1..], k + 1))
  {
    var options := quiz[0].options;
    var rest := QuizLines(quiz[1..], k + 1);
    var lines := QuizLines(quiz, k);
    assert lines[1..] == ChoiceLines(options) + rest;
    LeadingChoicesOf(options, rest);
    assert lines[1 + |options|..] == rest;
    assert lines[0].text == QuizLabel(k) + Sanitize(quiz[0].question);
  }

  lemma {:induction false} ReadQuizLines(quiz: seq<QuizItem>, k: nat)
    ensures ReadQuiz(QuizLines(quiz, k)) == ItemViews(quiz, k)
    decreases |quiz|
  {
    if |quiz| > 0 {
      ReadQuizStep(quiz, k);
      ReadQuizLines(quiz[1..], k + 1);
    }
  }

  /** The question and option lines are exactly the quiz loop's lines. */
  lemma KeptQuiz(summary: string, graph: Graph, quiz: seq<QuizItem>)
    ensures Keep(CreatePdf(summary, graph, quiz), {Question, Choice}) == QuizLines(quiz, 0)
  {
    var styles := {Question, Choice};
    KeepDocument(summary, graph, quiz, styles);
  }

  /** Read back from the finished document, the quiz section gives every item
      in order: item `i` as `Q{i+1}: ` and its question, with exactly its
      options, in order, under it. */
  lemma QuizSection(summary: string, graph: Graph, quiz: seq<QuizItem>)
    ensures var items := ReadQuiz(Keep(CreatePdf(summary, graph, quiz), {Question, Choice}));
            && |items| == |quiz|
            && forall i :: 0 <= i < |quiz| ==> items[i] == ItemView(i, quiz[i])
  {
    KeptQuiz(summary, graph, quiz);
    ReadQuizLines(quiz, 0);
  }
}
