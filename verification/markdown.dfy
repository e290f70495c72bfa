/** Rendering a batch of paper records as one Markdown document (`json_to_markdown`).

    The document is a header naming the calendar date of the first record, followed
    by one section per record in batch order. Each section is a heading with the
    cleaned title, the author line, two links built from the paper id, the cleaned
    summary and an image line. Two details of the source are kept as they are: the
    image line is the literal text `![image](img)` (the record's thumbnail is read and
    never used), and nothing follows it, so the next section's `## ` comes right after
    it on the same line. */
module Markdown {
  import opened Wrappers
  import opened Text
  import opened Dates

  datatype Author = Author(name: string)

  datatype Paper = Paper(id: string, title: string, summary: string, publishedAt: string, authors: seq<Author>)

  /** One element of the input array: the paper and, beside it, its thumbnail. */
  datatype Article = Article(paper: Paper, thumbnail: string)

  /** What rendering demands of a batch: the first record's timestamp has a date
      `fromisoformat` accepts. The other records' timestamps are never parsed. */
  predicate WellFormedBatch(batch: seq<Article>) {
    batch == [] || WellFormedTimestamp(batch[0].paper.publishedAt)
  }

  const HeaderPrefix := "# Daily Papers Summary for "
  const PapersUrl := "https://huggingface.co/papers/"
  const PdfUrl := "https://arxiv.org/pdf/"
  const ImageLine := "![image](img)"

  /** `[author['name'] for author in authors]`. */
  function Names(authors: seq<Author>): (names: seq<string>)
    ensures |names| == |authors|
    ensures forall i :: 0 <= i < |authors| ==> names[i] == authors[i].name
  {
    if authors == [] then [] else [authors[0].name] + Names(authors[1..])
  }

  /** The author text of a section: the names joined by `", "`, or `Unknown`. */
  function AuthorLine(authors: seq<Author>): string {
    var names := Names(authors);
    if names != [] then Join(names, ", ") else "Unknown"
  }

  function Header(date: string): string {
    HeaderPrefix + date + "\n\n"
  }

  /** The text one record adds to the document. */
  function Section(a: Article): string {
    "## " + CleanText(a.paper.title) + "\n\n"
    + "**Authors:** " + AuthorLine(a.paper.authors) + "\n\n"
    + "[Open in Hugging Face](" + (PapersUrl + a.paper.id) + ") | [Open PDF](" + (PdfUrl + a.paper.id) + ")\n\n"
    + CleanText(a.paper.summary) + "\n\n"
    + ImageLine
  }

  /** The texts `f` gives the elements of `xs`, one after another. */
  function ConcatMap<T>(f: T -> string, xs: seq<T>): string {
    if xs == [] then [] else f(xs[0]) + ConcatMap(f, xs[1..])
  }

  /** The sections of all records, in batch order. */
  function Sections(batch: seq<Article>): string {
    ConcatMap(Section, batch)
  }

  /** What `json_to_markdown(batch)` returns. */
  function Render(batch: seq<Article>): (r: Option<string>)
    requires WellFormedBatch(batch)
    ensures r.None? <==> batch == []
    ensures r.Some? ==> r.value == Header(batch[0].paper.publishedAt[..10]) + Sections(batch)
  {
    if batch == [] then None
    else Some(Header(DateString(batch[0].paper.publishedAt)) + Sections(batch))
  }

  /** `json_to_markdown(batch)`: the loop that appends each record's section. */
  method JsonToMarkdown(batch: seq<Article>) returns (r: Option<string>)
    requires WellFormedBatch(batch)
    ensures r == Render(batch)
  {
    if batch == [] {
      return None;
    }
    var dateStr := DateString(batch[0].paper.publishedAt);
    var content := HeaderPrefix + dateStr + "\n\n";
    for i := 0 to |batch|
      invariant content == Header(dateStr) + Sections(batch[..i])
    {
      var article := batch[i];
      var title := CleanText(article.paper.title);
      var summary := CleanText(article.paper.summary);
      var paperId := article.paper.id;
      var authorList := Names(article.paper.authors);
      var authors := if authorList != [] then Join(authorList, ", ") else "Unknown";
      var hfLink := PapersUrl + paperId;
      var arxivLink := PdfUrl + paperId;
      var section := "## " + title + "\n\n";
      section := section + "**Authors:** " + authors + "\n\n";
      section := section + "[Open in Hugging Face](" + hfLink + ") | [Open PDF](" + arxivLink + ")\n\n";
      section := section + summary + "\n\n";
      section := section + "![image](img)";
      SectionOfParts(article, title, authors, summary, section);
      AppendAssoc(Header(dateStr), Sections(batch[..i]), section);
      content := content + section;
      SectionsSnoc(batch[..i], article);
      TakeOneMore(batch, i);
    }
    assert batch[..|batch|] == batch;
    return Some(content);
  }

  /** The pieces the loop body assembles make up the record's section. */
  lemma SectionOfParts(a: Article, title: string, authors: string, summary: string, section: string)
    requires title == CleanText(a.paper.title) && summary == CleanText(a.paper.summary)
    requires authors == AuthorLine(a.paper.authors)
    requires section == "## " + title + "\n\n" + "**Authors:** " + authors + "\n\n"
      + "[Open in Hugging Face](" + (PapersUrl + a.paper.id) + ") | [Open PDF](" + (PdfUrl + a.paper.id) + ")\n\n"
      + summary + "\n\n" + "![image](img)"
    ensures section == Section(a)
  {
  }

  // ---------------------------------------------------------------------------
  // Properties of the rendered document

  lemma TakeOneMore<T>(s: seq<T>, i: nat)
    requires i < |s|
    ensures s[..i + 1] == s[..i] + [s[i]]
  {
  }

  lemma AppendAssoc<T>(x: seq<T>, y: seq<T>, z: seq<T>)
    ensures x + (y + z) == x + y + z
  {
  }

  lemma {:induction false} ConcatMapConcat<T>(f: T -> string, xs: seq<T>, ys: seq<T>)
    ensures ConcatMap(f, xs + ys) == ConcatMap(f, xs) + ConcatMap(f, ys)
  {
    if xs == [] {
      assert xs + ys == ys;
    } else {
      assert (xs + ys)[0] == xs[0] && (xs + ys)[1..] == xs[1..] + ys;
      ConcatMapConcat(f, xs[1..], ys);
    }
  }

  lemma SectionsConcat(b1: seq<Article>, b2: seq<Article>)
    ensures Sections(b1 + b2) == Sections(b1) + Sections(b2)
  {
    ConcatMapConcat(Section, b1, b2);
  }

  lemma ConcatMapSingle<T>(f: T -> string, x: T)
    ensures ConcatMap(f, [x]) == f(x)
  {
    assert ConcatMap(f, [x]) == f(x) + ConcatMap(f, []);
  }

  lemma SectionsSnoc(b: seq<Article>, a: Article)
    ensures Sections(b + [a]) == Sections(b) + Section(a)
  {
    ConcatMapConcat(Section, b, [a]);
    ConcatMapSingle(Section, a);
  }

  /** Appending a record to a non-empty batch appends exactly its section. */
  lemma RenderAppend(batch: seq<Article>, a: Article)
    requires batch != [] && WellFormedBatch(batch)
    ensures WellFormedBatch(batch + [a])
    ensures Render(batch + [a]) == Some(Render(batch).value + Section(a))
  {
    assert (batch + [a])[0] == batch[0];
    SectionsSnoc(batch, a);
    AppendAssoc(Header(DateString(batch[0].paper.publishedAt)), Sections(batch), Section(a));
  }

  /** Record `i`'s section stands between the sections of the records before it
      and those after it. */
  lemma SectionInOrder(batch: seq<Article>, i: nat)
    requires i < |batch|
    ensures Sections(batch) == Sections(batch[..i]) + Section(batch[i]) + Sections(batch[i + 1..])
  {
    ConcatMapAt(Section, batch, i);
  }

  lemma ConcatMapAt<T>(f: T -> string, xs: seq<T>, i: nat)
    requires i < |xs|
    ensures ConcatMap(f, xs) == ConcatMap(f, xs[..i]) + f(xs[i]) + ConcatMap(f, xs[i + 1..])
  {
    var front, rest := xs[..i], xs[i..];
    assert xs == front + rest;
    ConcatMapConcat(f, front, rest);
    assert rest[0] == xs[i] && rest[1..] == xs[i + 1..];
    var mid, back := f(xs[i]), ConcatMap(f, xs[i + 1..]);
    assert ConcatMap(f, rest) == mid + back;
    AppendAssoc(ConcatMap(f, front), mid, back);
  }

  /** The thumbnail has no influence on the document. */
  lemma ThumbnailIgnored(b1: seq<Article>, b2: seq<Article>)
    requires |b1| == |b2| && forall i :: 0 <= i < |b1| ==> b1[i].paper == b2[i].paper
    ensures Sections(b1) == Sections(b2)
    ensures WellFormedBatch(b1) ==> WellFormedBatch(b2) && Render(b1) == Render(b2)
  {
    forall i | 0 <= i < |b1|
      ensures Section(b1[i]) == Section(b2[i])
    {
    }
    ConcatMapPointwise(Section, b1, b2);
  }

  lemma {:induction false} ConcatMapPointwise<T>(f: T -> string, xs: seq<T>, ys: seq<T>)
    requires |xs| == |ys| && forall i :: 0 <= i < |xs| ==> f(xs[i]) == f(ys[i])
    ensures ConcatMap(f, xs) == ConcatMap(f, ys)
  {
    if xs != [] {
      assert f(xs[0]) == f(ys[0]);
      ConcatMapPointwise(f, xs[1..], ys[1..]);
    }
  }

  /** The author line of an empty list is `Unknown`, of one author that author's
      name, and every further author adds `", "` and the name. */
  lemma AuthorLineCases(authors: seq<Author>, a: Author)
    ensures AuthorLine([]) == "Unknown"
    ensures AuthorLine([a]) == a.name
    ensures authors != [] ==> AuthorLine(authors + [a]) == AuthorLine(authors) + ", " + a.name
  {
    if authors != [] {
      assert Names(authors + [a]) == Names(authors) + [a.name];
      JoinSnoc(Names(authors), a.name, ", ");
    }
  }

  /** Where the pieces of a section stand, for any title, author text, links and
      summary. */
  lemma {:induction false} LayoutOfSection(title: string, authors: string, hf: string, pdf: string, summary: string, section: string)
    requires section == "## " + title + "\n\n" + "**Authors:** " + authors + "\n\n"
      + "[Open in Hugging Face](" + hf + ") | [Open PDF](" + pdf + ")\n\n"
      + summary + "\n\n" + ImageLine
    ensures |section| >= 3 + |ImageLine|
    ensures section[..3] == "## "
    ensures OccursAt(section, "**Authors:** " + authors + "\n\n", 3 + |title| + 2)
    ensures section[|section| - |ImageLine|..] == ImageLine
  {
    var k := 3 + |title| + 2;
    var line := "**Authors:** " + authors + "\n\n";
    assert section[k..k + |line|] == line;
  }

  /** Where the title, the link line and the summary of a section stand, for any
      title, author text, links and summary. */
  lemma {:induction false} PiecesOfSection(title: string, authors: string, hf: string, pdf: string, summary: string, section: string)
    requires section == "## " + title + "\n\n" + "**Authors:** " + authors + "\n\n"
      + "[Open in Hugging Face](" + hf + ") | [Open PDF](" + pdf + ")\n\n"
      + summary + "\n\n" + ImageLine
    ensures OccursAt(section, title + "\n\n", 3)
    ensures Contains(section, "[Open in Hugging Face](" + hf + ") | [Open PDF](" + pdf + ")\n\n")
    ensures OccursAt(section, summary + "\n\n" + ImageLine, |section| - |summary| - 2 - |ImageLine|)
  {
    var head := "## " + title + "\n\n" + "**Authors:** " + authors + "\n\n";
    var links := "[Open in Hugging Face](" + hf + ") | [Open PDF](" + pdf + ")\n\n";
    var tail := summary + "\n\n" + ImageLine;
    assert section == head + links + tail;
    assert section[3..3 + |title| + 2] == title + "\n\n";
    assert section[|head|..|head| + |links|] == links;
    assert OccursAt(section, links, |head|);
    assert section[|head| + |links|..] == tail;
  }

  /** A section holds the cleaned title as its heading, the two links built from the
      paper id, and the cleaned summary right before the image line. */
  lemma SectionLayout(a: Article)
    ensures OccursAt(Section(a), CleanText(a.paper.title) + "\n\n", 3)
    ensures Contains(Section(a), "[Open in Hugging Face](" + (PapersUrl + a.paper.id) + ") | [Open PDF]("
      + (PdfUrl + a.paper.id) + ")\n\n")
    ensures OccursAt(Section(a), CleanText(a.paper.summary) + "\n\n" + ImageLine,
      |Section(a)| - |CleanText(a.paper.summary)| - 2 - |ImageLine|)
  {
    PiecesOfSection(CleanText(a.paper.title), AuthorLine(a.paper.authors), PapersUrl + a.paper.id,
      PdfUrl + a.paper.id, CleanText(a.paper.summary), Section(a));
  }

  /** The author line names every author. */
  lemma AuthorLineNamesAll(authors: seq<Author>)
    ensures forall i :: 0 <= i < |authors| ==> Contains(AuthorLine(authors), authors[i].name)
  {
    if authors != [] {
      JoinContainsParts(Names(authors), ", ");
    }
  }

  /** The header is one line naming the date, followed by a blank line. */
  lemma HeaderLayout(date: string)
    ensures OccursAt(Header(date), date, |HeaderPrefix|)
    ensures |Header(date)| == |HeaderPrefix| + |date| + 2 && Header(date)[|Header(date)| - 2..] == "\n\n"
    ensures '\n' !in date ==> '\n' !in Header(date)[..|Header(date)| - 2]
  {
    var h := Header(date);
    assert h[|HeaderPrefix|..|HeaderPrefix| + |date|] == date;
    assert h[..|h| - 2] == HeaderPrefix + date;
  }

  /** A section opens with `## ` and closes with the image line. */
  lemma SectionEnds(a: Article)
    ensures |Section(a)| >= 3 + |ImageLine|
    ensures Section(a)[..3] == "## "
    ensures Section(a)[|Section(a)| - |ImageLine|..] == ImageLine
  {
    LayoutOfSection(CleanText(a.paper.title), AuthorLine(a.paper.authors), PapersUrl + a.paper.id,
      PdfUrl + a.paper.id, CleanText(a.paper.summary), Section(a));
  }

  /** A section names its authors after `**Authors:** `, on a line of their own. */
  lemma SectionNamesAuthors(a: Article)
    ensures Contains(Section(a), "**Authors:** " + AuthorLine(a.paper.authors) + "\n\n")
  {
    LayoutOfSection(CleanText(a.paper.title), AuthorLine(a.paper.authors), PapersUrl + a.paper.id,
      PdfUrl + a.paper.id, CleanText(a.paper.summary), Section(a));
  }

  lemma Junction(x: string, y: string, u: string, v: string)
    requires |u| <= |x| && x[|x| - |u|..] == u
    requires |v| <= |y| && y[..|v|] == v
    ensures OccursAt(x + y, u + v, |x| - |u|)
  {
    assert (x + y)[|x| - |u|..|x| + |v|] == x[|x| - |u|..] + y[..|v|];
  }

  /** Nothing separates the image line of record `i`'s section from the heading of
      record `i + 1`'s section: `![image](img)## ` stands exactly where the two meet. */
  lemma ImageRunsIntoNextHeading(batch: seq<Article>, i: nat)
    requires i + 1 < |batch|
    ensures OccursAt(Sections(batch), ImageLine + "## ", |Sections(batch[..i + 1])| - |ImageLine|)
  {
    var front, later := batch[..i + 1], batch[i + 1..];
    assert front + later == batch;
    SectionEnds(batch[i]);
    SectionEnds(batch[i + 1]);
    ConcatMapMeetAt(Section, front, later, ImageLine, "## ",
      Sections(batch), ImageLine + "## ", |Sections(batch[..i + 1])| - |ImageLine|);
  }

  /** `ConcatMapMeet`, with the joined pieces, the pattern and its index named. */
  lemma ConcatMapMeetAt<T>(f: T -> string, front: seq<T>, later: seq<T>, u: string, v: string,
                           whole: string, w: string, k: int)
    requires front != [] && later != []
    requires |u| <= |f(front[|front| - 1])| && f(front[|front| - 1])[|f(front[|front| - 1])| - |u|..] == u
    requires |v| <= |f(later[0])| && f(later[0])[..|v|] == v
    requires whole == ConcatMap(f, front + later) && w == u + v && k == |ConcatMap(f, front)| - |u|
    ensures OccursAt(whole, w, k)
  {
    ConcatMapMeet(f, front, later, u, v);
  }

  /** When the last piece of `front` ends with `u` and the first piece of `later`
      starts with `v`, `u + v` stands where the two meet. */
  lemma ConcatMapMeet<T>(f: T -> string, front: seq<T>, later: seq<T>, u: string, v: string)
    requires front != [] && later != []
    requires |u| <= |f(front[|front| - 1])| && f(front[|front| - 1])[|f(front[|front| - 1])| - |u|..] == u
    requires |v| <= |f(later[0])| && f(later[0])[..|v|] == v
    ensures OccursAt(ConcatMap(f, front + later), u + v, |ConcatMap(f, front)| - |u|)
  {
    var n := |front| - 1;
    assert front == front[..n] + [front[n]];
    ConcatMapConcat(f, front[..n], [front[n]]);
    ConcatMapSingle(f, front[n]);
    EndsWithAppend(ConcatMap(f, front[..n]), f(front[n]), u);
    assert ConcatMap(f, later) == f(later[0]) + ConcatMap(f, later[1..]);
    StartsWithAppend(f(later[0]), ConcatMap(f, later[1..]), v);
    ConcatMapConcat(f, front, later);
    Junction(ConcatMap(f, front), ConcatMap(f, later), u, v);
  }

  lemma EndsWithAppend(x: string, s: string, u: string)
    requires |u| <= |s| && s[|s| - |u|..] == u
    ensures |u| <= |x + s| && (x + s)[|x + s| - |u|..] == u
  {
    assert (x + s)[|x + s| - |u|..] == s[|s| - |u|..];
  }

  lemma StartsWithAppend(s: string, y: string, v: string)
    requires |v| <= |s| && s[..|v|] == v
    ensures |v| <= |s + y| && (s + y)[..|v|] == v
  {
    assert (s + y)[..|v|] == s[..|v|];
  }

  lemma AuthorLinesSpelled()
    ensures "**Authors:** " + "Unknown" + "\n\n" == "**Authors:** Unknown\n\n"
    ensures "**Authors:** " + "A" + "\n\n" == "**Authors:** A\n\n"
  {
  }

  /** The two-record example: a record without authors is credited to `Unknown`,
      a record with the single author `A` to `A`. */
  lemma UnknownAndNamedAuthors(p1: Paper, p2: Paper, t1: string, t2: string)
    requires p1.authors == [] && p2.authors == [Author("A")]
    requires WellFormedTimestamp(p1.publishedAt)
    ensures var r := Render([Article(p1, t1), Article(p2, t2)]);
      && r.Some?
      && Contains(r.value, "**Authors:** Unknown\n\n")
      && Contains(r.value, "**Authors:** A\n\n")
  {
    var a1, a2 := Article(p1, t1), Article(p2, t2);
    var batch := [a1, a2];
    AuthorLineCases([], Author("A"));
    var head := Header(p1.publishedAt[..10]);
    var s1, s2 := Section(a1), Section(a2);
    assert batch == [a1] + [a2];
    ConcatMapConcat(Section, [a1], [a2]);
    ConcatMapSingle(Section, a1);
    ConcatMapSingle(Section, a2);
    assert Render(batch).value == head + (s1 + s2);
    SectionNamesAuthors(a1);
    SectionNamesAuthors(a2);
    AuthorLinesSpelled();
    ContainsBefore(s1, s2, "**Authors:** Unknown\n\n");
    ContainsAfter(head, s1 + s2, "**Authors:** Unknown\n\n");
    ContainsAfter(s1, s2, "**Authors:** A\n\n");
    ContainsAfter(head, s1 + s2, "**Authors:** A\n\n");
  }
}
