/**
 * The page-text cleaner of `scrape_website` in tools.py: the text that the
 * HTML extraction produced has every whitespace run replaced by one space
 * and is then cut to its first 5000 characters; a failure anywhere on the
 * way becomes an inline error string instead of an exception.
 */
module Scrape {

  /** The most characters a scraped page contributes. */
  const MaxPageChars: nat := 5000

  /** What every failure message starts with. */
  const ErrorPrefix: string := "Error scraping website: "

  /**
   * The outcome of fetching a page and extracting its visible text: the
   * text, or the message of the exception raised by the request, by the
   * status check or by the HTML parser.
   */
  datatype Fetched = Extracted(text: string) | Failed(reason: string)

  /**
   * The characters that `\s` matches in a pattern over text: those for
   * which Python's `str.isspace` holds (ASCII tab to carriage return, the
   * four information separators, space, NEL, no-break space, the Unicode
   * space separators and the line and paragraph separators).
   */
  predicate IsSpace(c: char) {
    var n := c as int;
    || (0x09 <= n <= 0x0D)
    || (0x1C <= n <= 0x20)
    || n == 0x85 || n == 0xA0 || n == 0x1680
    || (0x2000 <= n <= 0x200A)
    || n == 0x2028 || n == 0x2029 || n == 0x202F || n == 0x205F || n == 0x3000
  }

  /**
   * Among the ASCII characters, `\s` is tab, line feed, vertical tab, form
   * feed, carriage return, the four information separators and space.
   */
  lemma WhitespaceAscii(c: char)
    requires c as int < 0x80
    ensures IsSpace(c) <==> c in "\t\n\U{B}\U{C}\r\U{1C}\U{1D}\U{1E}\U{1F} "
  {
  }

  /** Beyond ASCII, `\s` takes in the no-break and ideographic spaces but not the zero-width space or the byte-order mark. */
  lemma WhitespaceBeyondAscii()
    ensures IsSpace('\U{A0}') && IsSpace('\U{3000}') && IsSpace('\U{2028}')
    ensures !IsSpace('\U{200B}') && !IsSpace('\U{FEFF}')
  {
  }

  /** Two spaces start at position `i` of `s`. */
  predicate DoubleSpaceAt(s: string, i: nat)
    requires i + 1 < |s|
  {
    s[i] == ' ' && s[i + 1] == ' '
  }

  /** No whitespace other than ' ', and never two spaces in a row. */
  predicate Normalized(s: string) {
    && (forall i :: 0 <= i < |s| && IsSpace(s[i]) ==> s[i] == ' ')
    && (forall i :: 0 <= i < |s| - 1 ==> !DoubleSpaceAt(s, i))
  }

  /** Normalized, read one character at a time from the front. */
  lemma NormalizedCons(c: char, t: string)
    ensures Normalized([c] + t) <==>
      && (IsSpace(c) ==> c == ' ')
      && Normalized(t)
      && !(c == ' ' && t != [] && t[0] == ' ')
  {
    var s := [c] + t;
    assert s[0] == c;
    assert forall i :: 0 < i < |s| ==> s[i] == t[i - 1];
    if Normalized(s) {
      forall i | 0 <= i < |t| && IsSpace(t[i]) ensures t[i] == ' ' {
        assert s[i + 1] == t[i];
      }
      forall i | 0 <= i < |t| - 1 ensures !DoubleSpaceAt(t, i) {
        assert !DoubleSpaceAt(s, i + 1);
      }
      if t != [] {
        assert !DoubleSpaceAt(s, 0);
      }
    }
    if && (IsSpace(c) ==> c == ' ') && Normalized(t) && !(c == ' ' && t != [] && t[0] == ' ') {
      forall i | 0 <= i < |s| - 1 ensures !DoubleSpaceAt(s, i) {
        if i > 0 {
          assert !DoubleSpaceAt(t, i - 1);
        }
      }
    }
  }

  /** Every prefix of a normalised text is normalised. */
  lemma NormalizedPrefix(s: string, n: nat)
    requires Normalized(s) && n <= |s|
    ensures Normalized(s[..n])
  {
    var p := s[..n];
    forall i | 0 <= i < |p| - 1 ensures !DoubleSpaceAt(p, i) {
      assert !DoubleSpaceAt(s, i);
    }
  }

  /** The non-whitespace characters of `s`, in order. */
  function NonSpace(s: string): string {
    if s == [] then [] else (if IsSpace(s[0]) then [] else [s[0]]) + NonSpace(s[1..])
  }

  /** `s` without its leading whitespace run. */
  function DropSpaces(s: string): (r: string)
    ensures |r| <= |s| && r == s[|s| - |r|..]
    ensures r == [] || !IsSpace(r[0])
    ensures forall i :: 0 <= i < |s| - |r| ==> IsSpace(s[i])
  {
    if s != [] && IsSpace(s[0]) then DropSpaces(s[1..]) else s
  }

  /**
   * `re.sub(r'\s+', ' ', s)`: scanning from the left, each maximal run of
   * whitespace is replaced by a single space.
   */
  function Collapse(s: string): (r: string)
    ensures |r| <= |s|
    ensures r == [] <==> s == []
    ensures s != [] ==> (r[0] == ' ' <==> IsSpace(s[0]))
    decreases |s|
  {
    if s == [] then []
    else if IsSpace(s[0]) then [' '] + Collapse(DropSpaces(s[1..]))
    else [s[0]] + Collapse(s[1..])
  }

  /** After collapsing, the only whitespace left is single spaces. */
  lemma {:induction false} CollapseNormalized(s: string)
    ensures Normalized(Collapse(s))
    decreases |s|
  {
    if s == [] {
    } else if IsSpace(s[0]) {
      CollapseNormalized(DropSpaces(s[1..]));
      NormalizedCons(' ', Collapse(DropSpaces(s[1..])));
    } else {
      CollapseNormalized(s[1..]);
      NormalizedCons(s[0], Collapse(s[1..]));
    }
  }

  /** `text[:5000]`. */
  function Truncate(s: string): (r: string)
    ensures |r| <= MaxPageChars && |r| <= |s|
    ensures r == s[..|r|]
    ensures |s| <= MaxPageChars ==> r == s
    ensures |s| > MaxPageChars ==> |r| == MaxPageChars
  {
    if |s| <= MaxPageChars then s else s[..MaxPageChars]
  }

  /**
   * `scrape_website` from the extracted text onward. A successful page is
   * normalised and capped; a failure is reported in the returned text.
   */
  function ScrapeWebsite(page: Fetched): (r: string)
    ensures page.Extracted? ==> Normalized(r) && |r| <= MaxPageChars
    ensures page.Extracted? ==> |r| <= |Collapse(page.text)| && r == Collapse(page.text)[..|r|]
    ensures page.Extracted? && |Collapse(page.text)| <= MaxPageChars ==> r == Collapse(page.text)
    ensures page.Extracted? && |Collapse(page.text)| > MaxPageChars ==> |r| == MaxPageChars
    ensures page.Failed? ==> r == ErrorPrefix + page.reason
  {
    match page
    case Extracted(text) =>
      var collapsed := Collapse(text);
      CollapseNormalized(text);
      NormalizedPrefix(collapsed, |Truncate(collapsed)|);
      Truncate(collapsed)
    case Failed(reason) => ErrorPrefix + reason
  }

  lemma {:induction false} NonSpaceConcat(a: string, b: string)
    ensures NonSpace(a + b) == NonSpace(a) + NonSpace(b)
  {
    if a == [] {
      assert a + b == b;
    } else {
      assert (a + b)[1..] == a[1..] + b;
      NonSpaceConcat(a[1..], b);
    }
  }

  lemma {:induction false} NonSpaceOfDropSpaces(s: string)
    ensures NonSpace(DropSpaces(s)) == NonSpace(s)
  {
    if s != [] && IsSpace(s[0]) {
      NonSpaceOfDropSpaces(s[1..]);
    }
  }

  /** Collapsing keeps every non-whitespace character, in its original order. */
  lemma {:induction false} CollapseKeepsNonSpace(s: string)
    ensures NonSpace(Collapse(s)) == NonSpace(s)
    decreases |s|
  {
    if s == [] {
    } else if IsSpace(s[0]) {
      var rest := DropSpaces(s[1..]);
      CollapseKeepsNonSpace(rest);
      NonSpaceOfDropSpaces(s[1..]);
      NonSpaceConcat([' '], Collapse(rest));
    } else {
      CollapseKeepsNonSpace(s[1..]);
      NonSpaceConcat([s[0]], Collapse(s[1..]));
    }
  }

  /** A text that is already normalised is left as it is. */
  lemma {:induction false} CollapseFixesNormalized(s: string)
    requires Normalized(s)
    ensures Collapse(s) == s
    decreases |s|
  {
    if s != [] {
      assert s == [s[0]] + s[1..];
      NormalizedCons(s[0], s[1..]);
      if IsSpace(s[0]) {
        assert DropSpaces(s[1..]) == s[1..];
      }
      CollapseFixesNormalized(s[1..]);
    }
  }

  /** Collapsing twice is the same as collapsing once. */
  lemma CollapseIdempotent(s: string)
    ensures Collapse(Collapse(s)) == Collapse(s)
  {
    CollapseNormalized(s);
    CollapseFixesNormalized(Collapse(s));
  }

  /** A non-empty whitespace run becomes exactly one space. */
  lemma {:induction false} CollapseSpaceRun(s: string)
    requires s != [] && forall i :: 0 <= i < |s| ==> IsSpace(s[i])
    ensures Collapse(s) == " "
  {
    assert DropSpaces(s[1..]) == [];
  }

  lemma {:induction false} DropSpacesConcat(a: string, b: string)
    ensures DropSpaces(a) != [] ==> DropSpaces(a + b) == DropSpaces(a) + b
    ensures DropSpaces(a) == [] ==> DropSpaces(a + b) == DropSpaces(b)
  {
    if a == [] {
      assert a + b == b;
    } else {
      assert (a + b)[1..] == a[1..] + b;
      if IsSpace(a[0]) {
        DropSpacesConcat(a[1..], b);
      }
    }
  }

  /**
   * Collapsing works run by run: two pieces that do not meet inside a
   * whitespace run are collapsed independently. Together with
   * CollapseSpaceRun and Collapse on a single non-space character this
   * determines Collapse on every input.
   */
  lemma {:induction false} CollapseConcat(a: string, b: string)
    requires a == [] || b == [] || !IsSpace(a[|a| - 1]) || !IsSpace(b[0])
    ensures Collapse(a + b) == Collapse(a) + Collapse(b)
    decreases |a|, 1
  {
    if a == [] {
      assert a + b == b;
    } else if b == [] {
      assert a + b == a;
    } else if !IsSpace(a[0]) {
      CollapseConcatWordHead(a, b);
    } else {
      CollapseConcatSpaceHead(a, b);
    }
  }

  lemma {:induction false} CollapseConcatWordHead(a: string, b: string)
    requires a != [] && !IsSpace(a[0])
    requires b == [] || !IsSpace(a[|a| - 1]) || !IsSpace(b[0])
    ensures Collapse(a + b) == Collapse(a) + Collapse(b)
    decreases |a|, 0
  {
    var tail := a[1..];
    assert Collapse(a + b) == [a[0]] + Collapse(tail + b) by {
      assert (a + b)[0] == a[0] && (a + b)[1..] == tail + b;
    }
    assert tail == [] || b == [] || !IsSpace(tail[|tail| - 1]) || !IsSpace(b[0]) by {
      assert tail == [] || tail[|tail| - 1] == a[|a| - 1];
    }
    CollapseConcat(tail, b);
  }

  lemma {:induction false} CollapseConcatSpaceHead(a: string, b: string)
    requires a != [] && IsSpace(a[0]) && b != []
    requires !IsSpace(a[|a| - 1]) || !IsSpace(b[0])
    ensures Collapse(a + b) == Collapse(a) + Collapse(b)
    decreases |a|, 0
  {
    assert (a + b)[0] == a[0] && (a + b)[1..] == a[1..] + b;
    var rest := DropSpaces(a[1..]);
    DropSpacesConcat(a[1..], b);
    if rest == [] {
      assert IsSpace(a[|a| - 1]);
      assert DropSpaces(b) == b;
    } else {
      assert rest[|rest| - 1] == a[|a| - 1];
      CollapseConcat(rest, b);
    }
  }

  /** Cutting a normalised text keeps it normalised. */
  lemma TruncateKeepsNormalized(s: string)
    requires Normalized(s)
    ensures Normalized(Truncate(s))
  {
    NormalizedPrefix(s, |Truncate(s)|);
  }

  /** A short page whose text is already normalised comes back unchanged. */
  lemma ShortNormalizedPageUnchanged(text: string)
    requires Normalized(text) && |text| <= MaxPageChars
    ensures ScrapeWebsite(Extracted(text)) == text
  {
    CollapseFixesNormalized(text);
  }

  /**
   * The error text is not cut: a long enough failure message makes
   * `scrape_website` return more than 5000 characters.
   */
  lemma ErrorTextNotTruncated(reason: string)
    requires |reason| > MaxPageChars - |ErrorPrefix|
    ensures |ScrapeWebsite(Failed(reason))| > MaxPageChars
  {
  }
}
