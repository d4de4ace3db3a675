/**
 * `save_to_txt` in tools.py: append a timestamped block to a text file and
 * report where it went. The files are a map from name to content, owned by
 * one object; the clock reading is passed in as the formatted timestamp.
 */
module SaveTxt {
  import opened Wrappers

  /** The file written when the caller names none. */
  const DefaultFilename: string := "leads_output.txt"

  /** What every block starts with, up to the timestamp. */
  const BlockHead: string := "--- Leads Output ---\nTimestamp: "

  /** `f"--- Leads Output ---\nTimestamp: {timestamp}\n\n{data}\n\n"`. */
  function FormatBlock(timestamp: string, data: string): (block: string)
    ensures |block| == |BlockHead| + |timestamp| + |data| + 4
    ensures block[..|BlockHead|] == BlockHead
    ensures block[|block| - 2..] == "\n\n"
  {
    BlockHead + timestamp + "\n\n" + data + "\n\n"
  }

  /** What the confirmation says before the file name. */
  const SavedPrefix: string := "Data successfully saved to "

  /** The confirmation returned to the caller; it names the file. */
  function Confirmation(filename: string): (msg: string)
    ensures |msg| == |SavedPrefix| + |filename|
    ensures msg[..|SavedPrefix|] == SavedPrefix
    ensures msg[|SavedPrefix|..] == filename
  {
    SavedPrefix + filename
  }

  /** Different files are confirmed with different messages. */
  lemma ConfirmationNamesOneFile(f: string, g: string)
    ensures Confirmation(f) == Confirmation(g) <==> f == g
  {
  }

  /** The position of the first `c` in `s`. */
  function IndexOf(s: string, c: char): (r: Option<nat>)
    ensures r.Some? ==> r.value < |s| && s[r.value] == c && c !in s[..r.value]
    ensures r.None? ==> c !in s
  {
    if s == [] then None
    else if s[0] == c then Some(0)
    else match IndexOf(s[1..], c) {
      case None => None
      case Some(k) =>
        assert s[..k + 1] == [s[0]] + s[1..][..k];
        Some(k + 1)
    }
  }

  /** The first `c` is found where it first occurs. */
  lemma IndexOfFirst(s: string, c: char, k: nat)
    requires k < |s| && s[k] == c && c !in s[..k]
    ensures IndexOf(s, c) == Some(k)
  {
    assert s[k] in s;
  }

  /**
   * Reads one block back into its timestamp and its data: the timestamp
   * runs up to the first line break after the head, the data sits between
   * the blank line and the final two line breaks.
   */
  function ParseBlock(block: string): Option<(string, string)> {
    if |block| < |BlockHead| || block[..|BlockHead|] != BlockHead then None
    else
      var rest := block[|BlockHead|..];
      match IndexOf(rest, '\n')
      case None => None
      case Some(k) =>
        var body := rest[k + 1..];
        if |body| < 3 || body[0] != '\n' || body[|body| - 2..] != "\n\n" then None
        else Some((rest[..k], body[1..|body| - 2]))
  }

  /** A block gives back its timestamp and its data, whatever the data holds. */
  lemma ParseFormatBlock(timestamp: string, data: string)
    requires '\n' !in timestamp
    ensures ParseBlock(FormatBlock(timestamp, data)) == Some((timestamp, data))
  {
    var block := FormatBlock(timestamp, data);
    var rest := timestamp + "\n\n" + data + "\n\n";
    var k := |timestamp|;
    assert block[..|BlockHead|] == BlockHead && block[|BlockHead|..] == rest by {
      assert block == BlockHead + rest;
    }
    assert IndexOf(rest, '\n') == Some(k) by {
      assert rest[k] == '\n' && rest[..k] == timestamp;
      IndexOfFirst(rest, '\n', k);
    }
    var body := rest[k + 1..];
    assert rest[..k] == timestamp;
    assert body == "\n" + data + "\n\n";
    assert |body| >= 3 && body[0] == '\n' && body[|body| - 2..] == "\n\n";
    assert body[1..|body| - 2] == data;
  }

  /** The output files, by name; a name not in the map is a file that does not exist yet. */
  class Files {
    var contents: map<string, string>

    constructor (initial: map<string, string>)
      ensures contents == initial
    {
      contents := initial;
    }

    /** What reading the file would give: nothing for a file not yet written. */
    function Content(filename: string): string
      reads this
    {
      if filename in contents then contents[filename] else ""
    }

    /**
     * `save_to_txt(data, filename)`: opens the file for appending (creating
     * it if need be), writes one block, and confirms. No other file changes
     * and what the file held before is kept as it was.
     */
    method SaveToTxt(data: string, timestamp: string, filename: string := DefaultFilename) returns (msg: string)
      modifies this
      ensures contents == old(contents)[filename := old(Content(filename)) + FormatBlock(timestamp, data)]
      ensures Content(filename)[..|old(Content(filename))|] == old(Content(filename))
      ensures forall f :: f != filename ==> Content(f) == old(Content(f))
      ensures msg == Confirmation(filename)
    {
      var formatted := FormatBlock(timestamp, data);
      var before := Content(filename);
      contents := contents[filename := before + formatted];
      msg := Confirmation(filename);
    }
  }

  /** Two saves to one file leave both blocks after the old content, in call order. */
  method SaveTwice(files: Files, filename: string, t1: string, d1: string, t2: string, d2: string)
    modifies files
    ensures files.Content(filename) == old(files.Content(filename)) + FormatBlock(t1, d1) + FormatBlock(t2, d2)
  {
    var _ := files.SaveToTxt(d1, t1, filename);
    var _ := files.SaveToTxt(d2, t2, filename);
  }
}
