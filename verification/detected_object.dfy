/**
 * DetectedObject: one recognised class, an immutable record of final fields
 * (id, title, quant flag, confidence) with accessors and a display string.
 * Java's nullable `String title` and `Float confidence` are `Option`s.
 */
module Detection {
  import opened Wrappers
  import opened JavaText

  datatype DetectedObject = DetectedObject(
    id: string,
    title: Option<string>,
    quant: bool,
    confidence: Option<real>)
  {
    /** Accessor for the id given at construction. */
    function GetId(): string {
      id
    }

    /** Accessor for the title given at construction. */
    function GetTitle(): Option<string> {
      title
    }

    /** Accessor for the confidence given at construction. */
    function GetConfidence(): Option<real> {
      confidence
    }

    /**
     * `toString()`: the title followed by a space when there is one, then
     * `"(" + pct + "%) "` when there is a confidence, the whole trimmed.
     * `render` stands for `String.format(Locale.CANADA, "%.1f", _)`, applied
     * to the confidence scaled to a percentage.
     */
    function ToString(render: real -> string): (r: string)
      ensures HasNoOuterWhitespace(r)
      ensures title.None? && confidence.None? ==> r == ""
      ensures title.Some? && confidence.None? ==> r == Trim(title.value)
      ensures confidence.Some? ==>
                r == TitleLead(title) + "(" + render(confidence.value * 100.0) + "%)"
    {
      var titlePart := if title.Some? then title.value + " " else "";
      var confidencePart := if confidence.Some? then "(" + render(confidence.value * 100.0) + "%) " else "";
      if confidence.Some? then
        var shown := "(" + render(confidence.value * 100.0) + "%)";
        assert confidencePart == shown + " ";
        TrimBeforePercentage(titlePart, shown);
        TitleLeadIsTrimmedTitlePart(title);
        Trim(titlePart + confidencePart)
      else
        assert titlePart + confidencePart == titlePart;
        TrimTitlePart(title);
        Trim(titlePart + confidencePart)
    }
  }

  /**
   * What stands before the parenthesised percentage in a rendered object:
   * the title without its leading whitespace and with one space appended, or
   * nothing when the title is absent or blank.
   */
  function TitleLead(title: Option<string>): string {
    match title
    case None => ""
    case Some(t) => if TrimStart(t) == [] then "" else TrimStart(t) + " "
  }

  /** `TitleLead` is the title part of `toString` with its leading whitespace removed. */
  lemma TitleLeadIsTrimmedTitlePart(title: Option<string>)
    ensures TitleLead(title) == TrimStart(if title.Some? then title.value + " " else "")
  {
    if title.Some? {
      TrimStartAppend(title.value, " ");
      assert TrimStart(" ") == TrimStart("") == "";
    }
  }

  /** Without a confidence, `toString` is the trimmed title (or empty). */
  lemma TrimTitlePart(title: Option<string>)
    ensures Trim(if title.Some? then title.value + " " else "") == if title.Some? then Trim(title.value) else ""
  {
    if title.Some? {
      var t := title.value;
      TrimStartAppend(t, " ");
      assert TrimStart(" ") == TrimStart("") == "";
      if TrimStart(t) != [] {
        TrimEndAppend(TrimStart(t), " ");
        assert TrimEnd(" ") == TrimEnd("") == "";
      }
    }
  }

  /**
   * With a confidence, trimming keeps the parenthesised percentage whole and
   * removes the leading whitespace of the title part and the final space.
   */
  lemma TrimBeforePercentage(titlePart: string, shown: string)
    requires shown != [] && shown[0] == '(' && shown[|shown| - 1] == ')'
    ensures Trim(titlePart + (shown + " ")) == TrimStart(titlePart) + shown
  {
    var cp := shown + " ";
    assert cp[0] == '(';
    assert TrimStart(cp) == cp;
    TrimStartAppend(titlePart, cp);
    var y := TrimStart(titlePart);
    assert TrimStart(titlePart + cp) == y + cp;
    assert TrimEnd(shown) == shown;
    assert TrimEnd(" ") == TrimEnd("") == "";
    TrimEndAppend(shown, " ");
    assert TrimEnd(cp) == shown;
    TrimEndAppend(y, cp);
  }

  /** The accessors give back exactly what the object was built from. */
  lemma AccessorsReturnFields(id: string, title: Option<string>, quant: bool, confidence: Option<real>)
    ensures DetectedObject(id, title, quant, confidence).GetId() == id
    ensures DetectedObject(id, title, quant, confidence).GetTitle() == title
    ensures DetectedObject(id, title, quant, confidence).GetConfidence() == confidence
  {
  }
}
