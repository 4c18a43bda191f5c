/** The OCR reader component: the transform that turns the recognised
    text into the HTML it displays, and the component state around it.
    Text recognition itself is an input.

    The transform is `replace(/\n/g, '<br />')` followed by a global
    replacement of one character class with a space. In the source text
    that class is written `[=,â€”,-,+]`: it holds '=', ',', the three
    characters U+00E2, U+20AC, U+201D (an em dash U+2014 whose UTF-8
    bytes were read as Windows-1252), the range `,-,` (which is only ','),
    and '+'. An ASCII hyphen is not in the class. */
module Ocr {
  import opened Options
  import opened Strings

  const BreakTag: string := "<br />"

  predicate InReplacedClass(c: char) {
    c == '=' || c == ',' || c == '\U{E2}' || c == '\U{20AC}' || c == '\U{201D}' || c == '+'
  }

  /** `text.replace(/\n/g, '<br />')`. */
  function ReplaceNewlines(s: string): (r: string)
    ensures |r| == |s| + 5 * Count(s, '\n')
    ensures '\n' !in r
  {
    if |s| == 0 then []
    else (if s[0] == '\n' then BreakTag else [s[0]]) + ReplaceNewlines(s[1..])
  }

  /** The class replacement: each character of the class becomes one space. */
  function ReplaceClass(s: string): (r: string)
    ensures |r| == |s|
    ensures forall i :: 0 <= i < |s| ==> r[i] == if InReplacedClass(s[i]) then ' ' else s[i]
  {
    if |s| == 0 then [] else [if InReplacedClass(s[0]) then ' ' else s[0]] + ReplaceClass(s[1..])
  }

  /** The `__html` the component renders for a recognition result. */
  function DisplayText(s: string): (r: string)
    ensures |r| == |s| + 5 * Count(s, '\n')
    ensures '\n' !in r
    ensures forall c :: InReplacedClass(c) ==> c !in r
  {
    var r := ReplaceClass(ReplaceNewlines(s));
    assert forall i :: 0 <= i < |r| ==> r[i] != '\n' by {
      var t := ReplaceNewlines(s);
      forall i | 0 <= i < |r|
        ensures r[i] != '\n'
      {
        assert t[i] in t;
      }
    }
    r
  }

  /** What one input character turns into, read off the two replacements
      independently of each other. */
  function DisplayChar(c: char): string {
    if c == '\n' then BreakTag
    else if InReplacedClass(c) then " "
    else [c]
  }

  lemma ReplaceClassAppend(a: string, b: string)
    ensures ReplaceClass(a + b) == ReplaceClass(a) + ReplaceClass(b)
  {
    var l, r := ReplaceClass(a + b), ReplaceClass(a) + ReplaceClass(b);
    assert forall i :: 0 <= i < |l| ==> l[i] == r[i] by {
      forall i | 0 <= i < |l|
        ensures l[i] == r[i]
      {
        if i < |a| {
          assert (a + b)[i] == a[i];
        } else {
          assert (a + b)[i] == b[i - |a|];
        }
      }
    }
  }

  /** The display is character-by-character: each input character
      contributes `DisplayChar` of itself, in order. */
  lemma {:induction false} DisplayIsPerCharacter(s: string)
    ensures |s| > 0 ==> DisplayText(s) == DisplayChar(s[0]) + DisplayText(s[1..])
    ensures |s| == 0 ==> DisplayText(s) == ""
  {
    if |s| > 0 {
      var head := if s[0] == '\n' then BreakTag else [s[0]];
      assert ReplaceNewlines(s) == head + ReplaceNewlines(s[1..]);
      ReplaceClassAppend(head, ReplaceNewlines(s[1..]));
      if s[0] == '\n' {
        assert ReplaceClass(BreakTag) == BreakTag;
      }
    }
  }

  /** The display read character by character, as a reference. */
  function DisplayRef(s: string): string {
    if |s| == 0 then "" else DisplayChar(s[0]) + DisplayRef(s[1..])
  }

  /** The two chained replacements agree with the per-character reading. */
  lemma {:induction false} DisplayMatchesReference(s: string)
    ensures DisplayText(s) == DisplayRef(s)
    decreases |s|
  {
    DisplayIsPerCharacter(s);
    if |s| > 0 {
      DisplayMatchesReference(s[1..]);
    }
  }

  lemma {:induction false} DisplayRefAppend(a: string, b: string)
    ensures DisplayRef(a + b) == DisplayRef(a) + DisplayRef(b)
    decreases |a|
  {
    if |a| == 0 {
      assert a + b == b;
    } else {
      assert (a + b)[0] == a[0] && (a + b)[1..] == a[1..] + b;
      DisplayRefAppend(a[1..], b);
    }
  }

  /** The display of a concatenation is the concatenation of displays. */
  lemma DisplayAppend(a: string, b: string)
    ensures DisplayText(a + b) == DisplayText(a) + DisplayText(b)
  {
    DisplayMatchesReference(a + b);
    DisplayMatchesReference(a);
    DisplayMatchesReference(b);
    DisplayRefAppend(a, b);
  }

  /** A one-character text is displayed as that character's contribution. */
  lemma OneCharacter(c: char)
    ensures DisplayText([c]) == DisplayChar(c)
  {
    DisplayIsPerCharacter([c]);
    DisplayIsPerCharacter([c][1..]);
  }

  /** A line break becomes the break tag and each class character a space. */
  lemma ReplacedCharacters()
    ensures DisplayText("\n") == "<br />"
    ensures forall c :: InReplacedClass(c) ==> DisplayText([c]) == " "
  {
    OneCharacter('\n');
    forall c | InReplacedClass(c)
      ensures DisplayText([c]) == " "
    {
      OneCharacter(c);
    }
  }

  /** Everything else stays as it is: the ASCII hyphen, the em dash itself
      and the angle brackets among them (nothing is HTML-escaped). */
  lemma KeptCharacters()
    ensures DisplayText("-") == "-"
    ensures DisplayText("<") == "<" && DisplayText(">") == ">"
    ensures DisplayText("\U{2014}") == "\U{2014}"
  {
    OneCharacter('-');
    OneCharacter('<');
    OneCharacter('>');
    OneCharacter('\U{2014}');
  }

  /** Text with nothing to replace is displayed unchanged. */
  lemma {:induction false} PlainTextUnchanged(s: string)
    requires forall i :: 0 <= i < |s| ==> s[i] != '\n' && !InReplacedClass(s[i])
    ensures DisplayText(s) == s
    decreases |s|
  {
    DisplayIsPerCharacter(s);
    if |s| > 0 {
      PlainTextUnchanged(s[1..]);
    }
  }

  /** A chosen image; its contents are outside the model. */
  datatype ImageFile = ImageFile(name: string)

  /** `selectedImage`, `imagePreview`, `ocrResult` and `ocrStatus`. */
  datatype OcrState = OcrState(
    selected: Option<ImageFile>,
    preview: Option<string>,
    result: string,
    status: string)

  /** `handleImageChange`: a new choice (or none) clears the previous
      result and status. `url` is the object URL the browser mints. */
  function HandleImageChange(st: OcrState, file: Option<ImageFile>, url: string): (s: OcrState)
    ensures s.result == "" && s.status == ""
    ensures s.selected == file
    ensures s.preview.Some? <==> file.Some?
    ensures s.preview.Some? ==> s.preview.value == url
  {
    OcrState(file, if file.Some? then Some(url) else None, "", "")
  }

  /** `readImageText` once recognition settles: `recognized` is the text,
      or `None` when recognition throws. Without an image nothing happens. */
  function ReadImageText(st: OcrState, recognized: Option<string>): (s: OcrState)
    ensures st.selected.None? ==> s == st
    ensures st.selected.Some? && recognized.Some? ==> s.result == recognized.value && s.status == "Completed"
    ensures st.selected.Some? && recognized.None? ==>
              s.result == st.result && s.status == "Error occurred during processing."
    ensures s.selected == st.selected && s.preview == st.preview
  {
    if st.selected.None? then st
    else match recognized
      case Some(text) => st.(result := text, status := "Completed")
      case None => st.(status := "Error occurred during processing.")
  }

  /** The status shown while recognition runs. */
  function BeginRead(st: OcrState): (s: OcrState)
    ensures st.selected.Some? ==> s == st.(status := "Processing...")
    ensures st.selected.None? ==> s == st
  {
    if st.selected.None? then st else st.(status := "Processing...")
  }
}
