/** The daily digest of `papers.py`: the arXiv search query built from a
    chat's authors and keywords, and the numbered message that lists the
    papers the search returns. The search itself is a parameter (`fetch`),
    and dates arrive already rendered as `dd-mm-yyyy`. */
module Papers {
  import opened Text
  import opened Templates

  /** One search result, reduced to what the digest shows: its title, its
      first link, its first author and its submission date. */
  datatype Paper = Paper(title: string, link: string, firstAuthor: string, published: string)

  datatype SortCriterion = Relevance | LastUpdatedDate | SubmittedDate

  /** The arguments of one `arxiv.Search`. */
  datatype SearchRequest = SearchRequest(query: string, maxResults: nat, sortBy: SortCriterion)

  /** The `max_results` of every search. */
  const MaxResults: nat := 10

  /** The argument of `.strip(" OR ")`: a set of three characters, not a word. */
  const StripSet: set<char> := {' ', 'O', 'R'}

  // ---------------------------------------------------------------------------
  // The search query
  // ---------------------------------------------------------------------------

  /** `au:"name"`: the author field must match. */
  function AuthorTerm(author: string): string
  {
    "au:\"" + author + "\""
  }

  /** `ti:"k" OR abs:"k"`: the title or the abstract must match. */
  function KeywordTerm(keyword: string): string
  {
    "ti:\"" + keyword + "\" OR abs:\"" + keyword + "\""
  }

  function AuthorTerms(authors: seq<string>): seq<string>
  {
    seq(|authors|, i requires 0 <= i < |authors| => AuthorTerm(authors[i]))
  }

  function KeywordTerms(keywords: seq<string>): seq<string>
  {
    seq(|keywords|, i requires 0 <= i < |keywords| => KeywordTerm(keywords[i]))
  }

  /** The author part: the author terms joined by " OR ", or "" without authors. */
  function AuthorsQuery(authors: seq<string>): string
  {
    if authors != [] then Join(AuthorTerms(authors), " OR ") else ""
  }

  /** The keyword part: the keyword terms joined by " OR ", or "" without keywords. */
  function KeywordsQuery(keywords: seq<string>): string
  {
    if keywords != [] then Join(KeywordTerms(keywords), " OR ") else ""
  }

  /** `f"{authors_query} OR {keywords_query}".strip(" OR ")`. */
  function Query(authors: seq<string>, keywords: seq<string>): string
  {
    Strip(AuthorsQuery(authors) + " OR " + KeywordsQuery(keywords), StripSet)
  }

  /** A non-empty list of terms, each opening and closing outside the strip
      set, joins to a string that opens and closes outside it. */
  lemma JoinedTermsTrimmed(terms: seq<string>)
    requires |terms| > 0
    requires forall i :: 0 <= i < |terms| ==> terms[i] != [] && terms[i][0] !in StripSet && terms[i][|terms[i]| - 1] !in StripSet
    ensures var q := Join(terms, " OR "); q != [] && q[0] !in StripSet && q[|q| - 1] !in StripSet
  {
    JoinEnds(terms, " OR ");
    var q, last := Join(terms, " OR "), terms[|terms| - 1];
    assert q[0] == terms[0][0];
    assert q[|q| - 1] == q[|q| - |last|..][|last| - 1] == last[|last| - 1];
  }

  /** A non-empty author part starts with `a` and ends with a quote. */
  lemma AuthorsQueryTrimmed(authors: seq<string>)
    requires authors != []
    ensures var q := AuthorsQuery(authors); q != [] && q[0] !in StripSet && q[|q| - 1] !in StripSet
  {
    JoinedTermsTrimmed(AuthorTerms(authors));
  }

  /** A non-empty keyword part starts with `t` and ends with a quote. */
  lemma KeywordsQueryTrimmed(keywords: seq<string>)
    requires keywords != []
    ensures var q := KeywordsQuery(keywords); q != [] && q[0] !in StripSet && q[|q| - 1] !in StripSet
  {
    JoinedTermsTrimmed(KeywordTerms(keywords));
  }

  /** Stripping " OR " as a character set is safe here: it removes exactly the
      dangling separator when one part is empty and nothing otherwise. */
  lemma QueryCases(authors: seq<string>, keywords: seq<string>)
    ensures authors != [] && keywords == [] ==> Query(authors, keywords) == AuthorsQuery(authors)
    ensures authors == [] && keywords != [] ==> Query(authors, keywords) == KeywordsQuery(keywords)
    ensures authors != [] && keywords != [] ==>
      Query(authors, keywords) == AuthorsQuery(authors) + " OR " + KeywordsQuery(keywords)
    ensures authors == [] && keywords == [] ==> Query(authors, keywords) == ""
  {
    var a, k := AuthorsQuery(authors), KeywordsQuery(keywords);
    var sep := " OR ";
    assert forall i :: 0 <= i < |sep| ==> sep[i] in StripSet;
    if authors != [] && keywords == [] {
      AuthorsQueryTrimmed(authors);
      assert a + sep + k == a + sep;
      StripRightSuffix(a, sep, StripSet);
    } else if authors == [] && keywords != [] {
      KeywordsQueryTrimmed(keywords);
      assert a + sep + k == sep + k;
      StripLeftPrefix(sep, k, StripSet);
    } else if authors != [] && keywords != [] {
      AuthorsQueryTrimmed(authors);
      KeywordsQueryTrimmed(keywords);
      var s := a + sep + k;
      assert s[0] == a[0] && s[|s| - 1] == k[|k| - 1];
      StripTrimmed(s, StripSet);
    } else {
      assert a + sep + k == "" + sep;
      StripLeftPrefix(sep, "", StripSet);
    }
  }

  /** Whenever there is something to search for, the query is the OR of one
      term per author followed by one term per keyword. */
  lemma QueryIsDisjunction(authors: seq<string>, keywords: seq<string>)
    requires authors != [] || keywords != []
    ensures Query(authors, keywords) == Join(AuthorTerms(authors) + KeywordTerms(keywords), " OR ")
  {
    var at, kt := AuthorTerms(authors), KeywordTerms(keywords);
    if authors == [] {
      QueryCases(authors, keywords);
      assert at == [];
      assert at + kt == kt;
    } else if keywords == [] {
      QueryCases(authors, keywords);
      assert kt == [];
      assert at + kt == at;
    } else {
      JoinConcat(at, kt, " OR ");
      assert AuthorsQuery(authors) == Join(at, " OR ");
      assert KeywordsQuery(keywords) == Join(kt, " OR ");
      QueryCases(authors, keywords);
    }
  }

  // ---------------------------------------------------------------------------
  // The digest message
  // ---------------------------------------------------------------------------

  /** The reply when the search returns nothing. */
  const NoPapers: string := "No new papers found."

  /** The first entry of the message: the count and today's date. */
  function Header(count: nat, today: string): string
  {
    "Last submitted " + NatToString(count) + " papers for " + today + "\n"
  }

  /** The entry for the paper ranked `rank`: the bold rank and linked title,
      then the first author with "et al." and the submission date. */
  function PaperLine(rank: nat, p: Paper): string
  {
    Bold(NatToString(rank) + ". " + Link(p.link, p.title)) + " - " + p.firstAuthor + " et al." + " (" + p.published + ")"
  }

  /** The entries for `papers`, ranked from `first` on. */
  function NumberedLines(papers: seq<Paper>, first: nat): seq<string>
    decreases |papers|
  {
    if papers == [] then [] else [PaperLine(first, papers[0])] + NumberedLines(papers[1..], first + 1)
  }

  /** The text `send_papers` sends for the papers the search returned. */
  function DigestText(papers: seq<Paper>, today: string): string
  {
    if papers == [] then NoPapers else Join([Header(|papers|, today)] + NumberedLines(papers, 1), "\n")
  }

  /** There is one entry per paper, in result order, the i-th ranked `first + i`. */
  lemma {:induction false} NumberedLinesAt(papers: seq<Paper>, first: nat, i: nat)
    requires i < |papers|
    ensures |NumberedLines(papers, first)| == |papers|
    ensures NumberedLines(papers, first)[i] == PaperLine(first + i, papers[i])
    decreases |papers|
  {
    if i > 0 {
      NumberedLinesAt(papers[1..], first + 1, i - 1);
    } else if |papers| > 1 {
      NumberedLinesAt(papers[1..], first + 1, 0);
    }
  }

  /** For N > 0 papers the message is the header, a line break, and the N
      entries ranked 1 to N in result order, one per line. */
  lemma DigestLayout(papers: seq<Paper>, today: string, i: nat)
    requires i < |papers|
    ensures DigestText(papers, today) == Header(|papers|, today) + "\n" + Join(NumberedLines(papers, 1), "\n")
    ensures |NumberedLines(papers, 1)| == |papers|
    ensures NumberedLines(papers, 1)[i] == PaperLine(i + 1, papers[i])
  {
    NumberedLinesAt(papers, 1, i);
    var lines := [Header(|papers|, today)] + NumberedLines(papers, 1);
    assert lines[1..] == NumberedLines(papers, 1);
  }

  /** An entry shows the paper's title, its link, its first author followed
      by "et al." and its date. */
  lemma PaperLineShowsPaper(rank: nat, p: Paper)
    ensures Contains(PaperLine(rank, p), p.title)
    ensures Contains(PaperLine(rank, p), p.link)
    ensures Contains(PaperLine(rank, p), p.firstAuthor + " et al.")
    ensures Contains(PaperLine(rank, p), p.published)
  {
    var link := Link(p.link, p.title);
    var inner := NatToString(rank) + ". " + link;
    var l0 := Bold(inner);
    var l1 := l0 + " - ";
    var l2 := l1 + p.firstAuthor;
    var l3 := l2 + " et al.";
    var l4 := l3 + " (";
    var l5 := l4 + p.published;
    var line := l5 + ")";
    // the bold part holds the link, which holds the url and the title
    ContainsEnd("<a href=\"", p.link);
    ContainsInLeft("<a href=\"" + p.link, "\">", p.link);
    ContainsInLeft("<a href=\"" + p.link + "\">", p.title, p.link);
    ContainsInLeft("<a href=\"" + p.link + "\">" + p.title, "</a>", p.link);
    ContainsEnd("<a href=\"" + p.link + "\">", p.title);
    ContainsInLeft("<a href=\"" + p.link + "\">" + p.title, "</a>", p.title);
    ContainsEnd(NatToString(rank) + ". ", link);
    ContainsEnd("<b>", inner);
    ContainsInLeft("<b>" + inner, "</b>", inner);
    ContainsStart(l0, " - ");
    ContainsInLeft(l1, p.firstAuthor, l0);
    ContainsInLeft(l2, " et al.", l0);
    ContainsInLeft(l3, " (", l0);
    ContainsInLeft(l4, p.published, l0);
    ContainsInLeft(l5, ")", l0);
    ContainsTransitive(line, l0, inner);
    ContainsTransitive(line, inner, link);
    ContainsTransitive(line, link, p.link);
    ContainsTransitive(line, link, p.title);
    // then the author with "et al." and the date
    assert l3 == l1 + (p.firstAuthor + " et al.");
    ContainsEnd(l1, p.firstAuthor + " et al.");
    ContainsInLeft(l3, " (", p.firstAuthor + " et al.");
    ContainsInLeft(l4, p.published, p.firstAuthor + " et al.");
    ContainsInLeft(l5, ")", p.firstAuthor + " et al.");
    ContainsEnd(l4, p.published);
    ContainsInLeft(l5, ")", p.published);
  }

  /** The entry of every returned paper is in the message, and with it the
      paper's title, link, first author and date. */
  lemma DigestShowsEveryPaper(papers: seq<Paper>, today: string, i: nat)
    requires i < |papers|
    ensures Contains(DigestText(papers, today), PaperLine(i + 1, papers[i]))
    ensures Contains(DigestText(papers, today), papers[i].title)
    ensures Contains(DigestText(papers, today), papers[i].link)
    ensures Contains(DigestText(papers, today), papers[i].firstAuthor + " et al.")
    ensures Contains(DigestText(papers, today), papers[i].published)
  {
    var p := papers[i];
    var lines := [Header(|papers|, today)] + NumberedLines(papers, 1);
    NumberedLinesAt(papers, 1, i);
    assert lines[i + 1] == PaperLine(i + 1, p);
    JoinContains(lines, "\n", i + 1);
    var text := DigestText(papers, today);
    var line := PaperLine(i + 1, p);
    PaperLineShowsPaper(i + 1, p);
    ContainsTransitive(text, line, p.title);
    ContainsTransitive(text, line, p.link);
    ContainsTransitive(text, line, p.firstAuthor + " et al.");
    ContainsTransitive(text, line, p.published);
  }

  /** Builds the digest as `send_papers` does: a list holding the header, one
      entry appended per paper in order, joined by line breaks. */
  method ComposeDigest(papers: seq<Paper>, today: string) returns (text: string)
    ensures text == DigestText(papers, today)
  {
    if papers == [] {
      return NoPapers;
    }
    var message := [Header(|papers|, today)];
    for idx := 0 to |papers|
      invariant |message| == idx + 1 && message[0] == Header(|papers|, today)
      invariant forall j :: 0 <= j < idx ==> message[j + 1] == PaperLine(j + 1, papers[j])
    {
      message := message + [PaperLine(idx + 1, papers[idx])];
    }
    var lines := [Header(|papers|, today)] + NumberedLines(papers, 1);
    NumberedLinesAt(papers, 1, 0);
    forall k | 0 <= k < |message| ensures message[k] == lines[k] {
      if k > 0 {
        NumberedLinesAt(papers, 1, k - 1);
      }
    }
    assert message == lines;
    text := Join(message, "\n");
  }

  /** The scheduled job's work for one chat: no search and no message without
      authors and keywords; otherwise one search, sorted by submission date
      and capped at ten results, and exactly one message to the chat with its
      digest. `searches` lists the requests made to the arXiv API. */
  method SendPapers(chatId: int, authors: seq<string>, keywords: seq<string>,
                    fetch: SearchRequest -> seq<Paper>, today: string)
    returns (sent: seq<Message>, searches: seq<SearchRequest>)
    ensures authors == [] && keywords == [] ==> sent == [] && searches == []
    ensures authors != [] || keywords != [] ==>
      var request := SearchRequest(Query(authors, keywords), MaxResults, SubmittedDate);
      && searches == [request]
      && sent == [Message(chatId, DigestText(fetch(request), today))]
  {
    if authors == [] && keywords == [] {
      return [], [];
    }
    var authorsQuery := if authors != [] then Join(AuthorTerms(authors), " OR ") else "";
    var keywordsQuery := if keywords != [] then Join(KeywordTerms(keywords), " OR ") else "";
    var query := Strip(authorsQuery + " OR " + keywordsQuery, StripSet);
    var request := SearchRequest(query, MaxResults, SubmittedDate);
    searches := [request];
    var papers := fetch(request);
    var text := ComposeDigest(papers, today);
    sent := [Message(chatId, text)];
  }
}
