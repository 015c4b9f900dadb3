/**
 * File names: which dropped or chosen files are accepted as HTML, the base
 * name kept from them, and the name the PDF is saved under.
 */
module FileNames {
  import opened Wrappers

  /** ASCII lower-casing, the case folding of a case-insensitive regular expression on these letters. */
  function LowerAscii(c: char): char {
    if 'A' <= c <= 'Z' then (c as int + 32) as char else c
  }

  function Lower(s: string): (r: string)
    ensures |r| == |s| && forall i :: 0 <= i < |s| ==> r[i] == LowerAscii(s[i])
  {
    if s == [] then [] else [LowerAscii(s[0])] + Lower(s[1..])
  }

  predicate EndsWith(s: string, suffix: string) {
    |suffix| <= |s| && s[|s| - |suffix|..] == suffix
  }

  /** The name ends in ".html", ignoring ASCII case. */
  predicate EndsWithHtml(name: string) {
    |name| >= 5 && Lower(name[|name| - 5..]) == ".html"
  }

  /** The name ends in ".htm", ignoring ASCII case. */
  predicate EndsWithHtm(name: string) {
    |name| >= 4 && Lower(name[|name| - 4..]) == ".htm"
  }

  /** The name matches /\.html?$/i. */
  predicate IsHtmlName(name: string) {
    EndsWithHtml(name) || EndsWithHtm(name)
  }

  /** The name with its ".html" or ".htm" suffix (any case) removed, as String.replace removes the match. */
  function StripHtmlSuffix(name: string): (base: string)
    requires IsHtmlName(name)
    ensures |base| < |name| && name[..|base|] == base
    ensures Lower(name[|base|..]) == ".html" || Lower(name[|base|..]) == ".htm"
    ensures EndsWithHtml(name) ==> |base| == |name| - 5
  {
    if EndsWithHtml(name) then name[..|name| - 5] else name[..|name| - 4]
  }

  /**
   * The base name kept from a chosen file: None when there is no file or
   * its name does not end in ".html" or ".htm" (any case).
   */
  function AcceptFile(file: Option<string>): (r: Option<string>)
    ensures r.Some? <==> file.Some? && IsHtmlName(file.value)
    ensures r.Some? ==> r.value == StripHtmlSuffix(file.value)
  {
    match file
    case None => None
    case Some(name) => if IsHtmlName(name) then Some(StripHtmlSuffix(name)) else None
  }

  /**
   * Stripping undoes appending: a base name followed by ".html" or ".htm",
   * in any case, is accepted and gives that base name back.
   */
  lemma HtmlSuffixRoundTrip(base: string, ext: string)
    requires Lower(ext) == ".html" || Lower(ext) == ".htm"
    ensures AcceptFile(Some(base + ext)) == Some(base)
  {
    var name := base + ext;
    assert name[|name| - |ext|..] == ext;
    assert name[..|base|] == base;
    if Lower(ext) == ".htm" {
      assert Lower(name[|name| - 4..]) == ".htm";
      if |name| >= 5 {
        assert Lower(name[|name| - 5..])[4] == LowerAscii(name[|name| - 1]) == 'm';
      }
    }
  }

  /**
   * The page's state that loading a file changes: the base name of the
   * accepted file and the placeholder shown in the output-name field.
   */
  class Session {
    var fileName: string
    var placeholder: string

    constructor (initialPlaceholder: string)
      ensures fileName == "" && placeholder == initialPlaceholder
    {
      fileName := "";
      placeholder := initialPlaceholder;
    }

    /**
     * Accepts an HTML file: keeps its base name and shows base + ".pdf" as
     * the placeholder. Anything else is refused and changes nothing.
     */
    method LoadFile(file: Option<string>) returns (accepted: bool)
      modifies this
      ensures accepted <==> AcceptFile(file).Some?
      ensures accepted ==> fileName == AcceptFile(file).value && placeholder == fileName + ".pdf"
      ensures !accepted ==> fileName == old(fileName) && placeholder == old(placeholder)
    {
      if file.None? || !IsHtmlName(file.value) {
        return false;
      }
      fileName := StripHtmlSuffix(file.value);
      placeholder := fileName + ".pdf";
      accepted := true;
    }
  }

  /**
   * The characters String.prototype.trim removes: the white space and line
   * terminators of ECMAScript (tab, line feed, vertical tab, form feed,
   * carriage return, space, no-break space, the space separators of
   * Unicode, line and paragraph separators, and the byte order mark).
   */
  predicate IsTrimmed(c: char) {
    var u := c as int;
    (0x09 <= u <= 0x0D) || u == 0x20 || u == 0xA0 || u == 0x1680 || (0x2000 <= u <= 0x200A) ||
    u == 0x2028 || u == 0x2029 || u == 0x202F || u == 0x205F || u == 0x3000 || u == 0xFEFF
  }

  /** Every character of s is one that trim removes. */
  predicate AllTrimmed(s: string) {
    forall k :: 0 <= k < |s| ==> IsTrimmed(s[k])
  }

  /** The number of white-space characters at the start of s. */
  function LeadingSpace(s: string): (n: nat)
    ensures n <= |s|
    ensures forall k :: 0 <= k < n ==> IsTrimmed(s[k])
    ensures n < |s| ==> !IsTrimmed(s[n])
  {
    if s != [] && IsTrimmed(s[0]) then 1 + LeadingSpace(s[1..]) else 0
  }

  /** The number of white-space characters at the end of s. */
  function TrailingSpace(s: string): (n: nat)
    ensures n <= |s|
    ensures forall k :: |s| - n <= k < |s| ==> IsTrimmed(s[k])
    ensures n < |s| ==> !IsTrimmed(s[|s| - n - 1])
  {
    if s != [] && IsTrimmed(s[|s| - 1]) then 1 + TrailingSpace(s[..|s| - 1]) else 0
  }

  /**
   * The input with leading and trailing white space removed
   * (String.prototype.trim); a string of white space only trims to "".
   */
  function Trim(s: string): string {
    var i := LeadingSpace(s);
    var j := |s| - TrailingSpace(s);
    if j < i then [] else s[i..j]
  }

  /**
   * Trimming leaves a piece of the input: it starts right after the leading
   * white space, and only white space follows it.
   */
  lemma TrimIsInfix(s: string)
    ensures var i := LeadingSpace(s);
      && i + |Trim(s)| <= |s| && Trim(s) == s[i..i + |Trim(s)|]
      && AllTrimmed(s[..i]) && AllTrimmed(s[i + |Trim(s)|..])
  {
    var i, n := LeadingSpace(s), TrailingSpace(s);
    if i < |s| {
      assert !IsTrimmed(s[i]);
    }
  }

  /** What trimming leaves starts and ends with a character trim does not remove. */
  lemma TrimEnds(s: string)
    ensures Trim(s) == [] || (!IsTrimmed(Trim(s)[0]) && !IsTrimmed(Trim(s)[|Trim(s)| - 1]))
  {
    var i, n := LeadingSpace(s), TrailingSpace(s);
    if Trim(s) != [] {
      assert Trim(s)[0] == s[i];
      assert Trim(s)[|Trim(s)| - 1] == s[|s| - n - 1];
    }
  }

  /** The output field, trimmed, or the loaded file's base name with ".pdf" when that is empty. */
  function OutputName(field: string, fileName: string): string {
    var t := Trim(field);
    if t == [] then fileName + ".pdf" else t
  }

  /** The name the PDF is saved under: the output name, with ".pdf" appended unless it already ends so. */
  function FinalName(field: string, fileName: string): (r: string)
    ensures EndsWith(r, ".pdf")
  {
    var out := OutputName(field, fileName);
    if EndsWith(out, ".pdf") then out else out + ".pdf"
  }

  /**
   * An output field that is blank after trimming saves under the base name
   * plus ".pdf"; a trimmed field already ending in ".pdf" is used as it is;
   * any other trimmed field gets ".pdf" appended.
   */
  lemma FinalNameCases(field: string, fileName: string)
    ensures Trim(field) == [] ==> FinalName(field, fileName) == fileName + ".pdf"
    ensures Trim(field) != [] && EndsWith(Trim(field), ".pdf") ==> FinalName(field, fileName) == Trim(field)
    ensures Trim(field) != [] && !EndsWith(Trim(field), ".pdf") ==> FinalName(field, fileName) == Trim(field) + ".pdf"
  {
    var base := fileName + ".pdf";
    assert base[|base| - 4..] == ".pdf";
  }

  /** Saving is idempotent on names: a final name used as the output field gives itself back. */
  lemma FinalNameIdempotent(field: string, fileName: string, other: string)
    requires Trim(FinalName(field, fileName)) == FinalName(field, fileName)
    ensures FinalName(FinalName(field, fileName), other) == FinalName(field, fileName)
  {
  }
}
