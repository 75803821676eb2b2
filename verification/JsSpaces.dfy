/** What `trim` takes away, by the characters. */
module JsSpaces {
  import opened JsText

  /** The white space and line terminators of ECMAScript. */
  const SPACES :=
    "\t\n\U{000B}\U{000C}\r \U{00A0}\U{1680}" + "\U{2000}\U{2001}\U{2002}\U{2003}\U{2004}\U{2005}"
    + "\U{2006}\U{2007}\U{2008}\U{2009}\U{200A}" + "\U{2028}\U{2029}\U{202F}\U{205F}\U{3000}\U{FEFF}"

  lemma SpacesListed(c: char)
    ensures IsSpace(c) <==> c in SPACES
  {
  }

  /** `trim` takes away exactly the white space at both ends. */
  lemma TrimMeans(front: string, text: string, back: string)
    requires forall c | c in front + back :: c in SPACES
    requires text == "" || (text[0] !in SPACES && text[|text| - 1] !in SPACES)
    ensures Trim(front + text + back) == text
  {
    hide SPACES, IsSpace, Trim;
    forall c ensures IsSpace(c) <==> c in SPACES { SpacesListed(c); }
    if text == "" {
      TrimNothing(front + back);
      assert front + text + back == front + back;
    } else {
      assert (forall c | c in front :: c in front + back) && forall c | c in back :: c in front + back;
      TrimPadded(front, text, back);
    }
  }

  lemma TrimNothing(s: string)
    requires AllSpace(s)
    ensures Trim(s) == ""
  {
    hide IsSpace;
    TrimStartShape(s);
  }
}
