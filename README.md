# Lead-generation tools, modelled in Dafny

The repository drives a hosted language-model agent that looks for small
businesses, reads about them on the web and saves a report. This project models
the tool layer in `tools.py` that the agent calls. That layer is the only
deterministic logic in the repository. It has five parts:

- **Lead query builder** (`generate_search_queries`): turns a company name into
  three search queries, one per fixed keyword. See `queries.dfy`, module `Queries`.
- **Page-text cleaner** (`scrape_website`, from the extracted text onward): every
  whitespace run becomes one space, the text is cut to 5000 characters, and any
  failure becomes the text `"Error scraping website: " + message`. See
  `scrape.dfy`, module `Scrape`. The HTTP request, the status check and
  BeautifulSoup's text extraction are one input value: `Extracted(text)` or
  `Failed(reason)`.
- **First-URL extraction** (the regular expression in `search_and_scrape`): the
  leftmost, longest match of `http[s]?://` followed by one or more URL characters.
  The character class is modelled exactly. `[$-_]` is a range from 0x24 to 0x5F,
  so it takes in `%`, `/`, `:`, `?`, `=`, `'`, `<`, `>`, `[`, `]` and the
  upper-case letters. See `urls.dfy`, module `Urls`.
- **Search-and-scrape** (`search_and_scrape`): a loop over the three queries. For
  each query it searches, takes the first URL, scrapes it, and collects the text.
  The collected texts are joined with single spaces. The search engine
  (`search: string -> string`) and the page fetch
  (`fetch: (nat, string) -> Fetched`) are parameters. The fetch takes the
  request's number within the call, so two fetches of one URL can have
  different outcomes. The three queries of a call are pairwise different
  (`QueriesDistinct`), so a function of the query loses nothing for the search.
  See `search_scrape.dfy`, module `SearchScrape`.
- **Append-only save** (`save_to_txt`): a `Files` object holds a map from file
  name to content. Its method appends one fixed-format block and returns a
  confirmation. The timestamp is a parameter. See `save_txt.dfy`, module
  `SaveTxt`.

`wrappers.dfy` holds the `Option` type the other modules share.

Two consequences of following the code exactly:

- The error text of `scrape_website` is not truncated, so the tool's output is
  not always at most 5000 characters. `ErrorTextNotTruncated` shows this.
- Whitespace collapsing does not strip the ends of the text. Stripping belongs to
  the HTML extraction (`get_text(..., strip=True)`), which is an input here.

## Model

| member | source | states |
|---|---|---|
| `Queries.GenerateSearchQueries` | tools.py:44-46 | exactly three queries, in order: name + " IT Services", name + " managed IT", name + " technology solutions" |
| `Queries.CompanyOfQuery` | tools.py:46 | a query ends in " " + keyword exactly when a name is read back, and the query is then that name, a space and the keyword |
| `Queries.QueryRoundTrip` | tools.py:46 | the company name read back from any of its queries is the name the query was built from |
| `Queries.QueriesInjective` | tools.py:44-46 | two names with the same query list are the same name |
| `Queries.QueriesDistinct` | tools.py:45-46 | the three queries of one company are pairwise different |
| `Scrape.WhitespaceAscii` | tools.py:36 | among ASCII characters, `\s` is exactly tab, line feed, vertical tab, form feed, carriage return, 0x1C to 0x1F and space |
| `Scrape.WhitespaceBeyondAscii` | tools.py:36 | `\s` takes in the no-break, ideographic and line-separator spaces, and not the zero-width space or the byte-order mark |
| `Scrape.Collapse` | tools.py:36 | collapsing never lengthens the text, gives empty output exactly for empty input, and starts with a space exactly when the input starts with whitespace |
| `Scrape.CollapseNormalized` | tools.py:36 | after collapsing, the only whitespace left is ' ' and no two spaces are adjacent |
| `Scrape.CollapseKeepsNonSpace` | tools.py:36 | every non-whitespace character is kept, in its original order |
| `Scrape.CollapseFixesNormalized` | tools.py:36 | a text that is already normalised comes back unchanged |
| `Scrape.CollapseIdempotent` | tools.py:36 | collapsing twice equals collapsing once |
| `Scrape.CollapseSpaceRun` | tools.py:36 | any non-empty whitespace run becomes exactly one space |
| `Scrape.CollapseConcat` | tools.py:36 | two pieces that do not meet inside a whitespace run are collapsed independently, so collapsing works run by run |
| `Scrape.Truncate` | tools.py:39 | the result is a prefix of at most 5000 characters; a text of at most 5000 characters is unchanged; a longer one gives exactly 5000 |
| `Scrape.TruncateKeepsNormalized` | tools.py:36-39 | cutting a normalised text keeps it normalised |
| `Scrape.ScrapeWebsite` | tools.py:27-41 | on success the result is normalised, at most 5000 characters, a prefix of the collapsed text, all of it when that fits and exactly its first 5000 characters when it does not; on any failure it is "Error scraping website: " + the message, returned and not raised |
| `Scrape.ShortNormalizedPageUnchanged` | tools.py:36-39 | a normalised page text of at most 5000 characters is returned as it is |
| `Scrape.ErrorTextNotTruncated` | tools.py:40-41 | the error text is not cut: a long message gives more than 5000 characters |
| `Urls.UrlCharSet` | tools.py:62 | the URL characters are exactly a-z, 0x24 to 0x5F and '!'; a URL stops at control characters, space, '"', '#', '`', '{', '|', '}', '~' and everything from DEL on |
| `Urls.PercentEscapeSubsumed` | tools.py:62 | the `%XX` alternative only matches characters the class already accepts |
| `Urls.SchemeLen` | tools.py:62 | the scheme matched at a position is "https://" (length 8), else "http://" (length 7), else none |
| `Urls.RunEnd` | tools.py:62 | the repeated group extends over every URL character from its start and stops at the first other character or at the end |
| `Urls.MatchAt` | tools.py:61-64 | a match at a position exists exactly when a scheme is there followed by a URL character; it is a substring at that position, a whole URL, and maximal |
| `Urls.FirstUrl` | tools.py:61-67 | `urls[0]` exists exactly when the pattern matches at some position; it is then a whole URL and the match at one of the positions |
| `Urls.FirstMatchFrom` | tools.py:61-68 | the position returned has a match and no earlier position does; with no result no position has a match |
| `Urls.FirstUrlIsLeftmostMatch` | tools.py:61-67 | `urls[0]` is the match at the leftmost matching position |
| `Urls.MatchAtExtend` | tools.py:61-64 | text after a character that cannot be in a URL does not change whether, or what, a match at an earlier position is |
| `Urls.FirstUrlEmbedded` | tools.py:61-68 | a URL placed after text with no match, and followed by a character that ends URLs, is exactly what is extracted |
| `Urls.NoSchemeNoUrl` | tools.py:61-67 | text that never contains "http" yields no URL |
| `Urls.AngleBracketKept` | tools.py:62 | because of the range `$-_`, "Visit https://a.b> now" yields "https://a.b>", closing bracket included |
| `SearchScrape.Join` | tools.py:71 | joining k texts adds exactly k - 1 separator characters |
| `SearchScrape.JoinPieces` | tools.py:71 | every collected text appears in the joined result at its offset, in order, with one space before each text except the first |
| `SearchScrape.JoinConcat` | tools.py:71 | joining two non-empty lists is joining each with one space between; an empty list adds nothing |
| `SearchScrape.FirstUrlOfEach` | tools.py:56-64 | one entry per query, in query order: the first URL of that query's search result |
| `SearchScrape.FirstUrlsOfOne` | tools.py:66-67 | one search result contributes its first URL if it has one, and nothing otherwise |
| `SearchScrape.FirstUrlsConcat` | tools.py:56-67 | URLs are taken result by result: the URLs of a list of results are those of its parts, in order |
| `SearchScrape.FirstUrlsFromResults` | tools.py:67-68 | every URL fetched is the first URL of one of the search results |
| `SearchScrape.Collected` | tools.py:54-68 | one text per URL taken; the i-th text is the scraped page of the i-th URL taken, fetched as the i-th request |
| `SearchScrape.AllQueriesContribute` | tools.py:67-68 | every query contributes a text exactly when every query's search result holds a URL |
| `SearchScrape.QueryWithoutUrlAddsNothing` | tools.py:67-68 | a query without a URL adds nothing, not even an empty text, so fewer texts than queries are collected |
| `SearchScrape.NoUrlsNoText` | tools.py:54-71 | when no query yields a URL nothing is collected and the result is the empty text |
| `SearchScrape.SearchAndScrape` | tools.py:49-71 | one search per query, in query order, three in all; only the first URL of each result is fetched, at most three fetches; the result is the collected texts joined with single spaces |
| `SaveTxt.FormatBlock` | tools.py:18 | a block begins with the "--- Leads Output ---" and "Timestamp: " head, ends with two line breaks, and is four characters longer than the head, the timestamp and the data together |
| `SaveTxt.ParseFormatBlock` | tools.py:18 | for a timestamp without a line break, the block can be read back into exactly its timestamp and data |
| `SaveTxt.Confirmation` | tools.py:24 | the confirmation is "Data successfully saved to " followed by the file name |
| `SaveTxt.ConfirmationNamesOneFile` | tools.py:24 | two confirmations are equal exactly when they name the same file |
| `SaveTxt.Files.SaveToTxt` | tools.py:14-24 | the file's new content is its old content followed by the block, and a file that did not exist starts empty; no other file changes; the prior content stays a prefix; the default file is "leads_output.txt"; the confirmation names the file |
| `SaveTxt.SaveTwice` | tools.py:20-22 | two saves to one file leave the old content followed by both blocks, in call order |

## Left out

- main.py is not part of this model. It configures the remote language model, builds the prompt, runs the external agent loop and decodes its answer with Pydantic. All of that is third-party code and a remote service.
- `search_web` (tools.py:74-78) is a direct call to the DuckDuckGo search tool. In the model, search is the parameter `search`.
- The HTTP request with its 10-second timeout, `raise_for_status` and BeautifulSoup's text extraction (tools.py:30-35) are network and third-party parsing. Their outcome is the input `Fetched`. Every exception they raise is a `Failed(reason)`, where `reason` is the exception's text.
- `datetime.now().strftime(...)` (tools.py:17) reads the clock, so the formatted timestamp is a parameter. Its `YYYY-MM-DD HH:MM:SS` shape is not checked.
- The `@tool` decorator and the exported names (tools.py:14, 49, 74, 81-83) only register the functions with the agent framework.
- SearchScrape.SearchAndScrape: an exception raised by the search engine ends the call. This is not modelled, because `search` is a total function here. The `searched` and `fetched` logs stand in for the calls to the two services.
- SaveTxt.Files.SaveToTxt: a failure to open or write the file (permission, full disk) is not modelled, nor is the UTF-8 encoding. The content is a string of characters.
- SaveTxt.Files.SaveToTxt: files are keyed by name. Two names that the file system resolves to one file ("a.txt" and "./a.txt", a symbolic link, a case-insensitive file system) are two files here, so "no other file changes" holds of names, not of files on disk.
- SaveTxt.Files.SaveToTxt: the file is opened in text mode, which writes each line break as the platform's line separator. The content equation holds where that separator is "\n"; on Windows each "\n" of the block is written as "\r\n".
- Character positions count Unicode code points, like Python's `str`. Nothing depends on any encoding.
