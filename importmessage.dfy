/**
 * ProjectImportEventMessage: an unusual event that occurred during a project
 * import, as an immutable (category, text) pair.
 */
module ImportMessage {

  /** The two fields are final, so the message is a value; the getters are the destructors. */
  datatype ProjectImportEventMessage = ProjectImportEventMessage(category: string, text: string)
  {
    /**
     * The display form: the text alone when the category is empty, otherwise the
     * category, one space and the text.
     */
    function ToString(): (s: string)
      ensures |s| == if category == [] then |text| else |category| + 1 + |text|
      ensures s[|s| - |text|..] == text
      ensures category != [] ==> s[..|category|] == category && s[|category|] == ' '
    {
      if category == [] then text else category + " " + text
    }
  }

  /** Index of the first space in s, or |s| when there is none. */
  function FirstSpace(s: string): (i: nat)
    ensures i <= |s|
    ensures forall k :: 0 <= k < i ==> s[k] != ' '
    ensures i < |s| ==> s[i] == ' '
  {
    if s == [] then 0
    else if s[0] == ' ' then 0
    else 1 + FirstSpace(s[1..])
  }

  /**
   * Reads a displayed message back: everything before the first space is the
   * category, the rest the text; a string without a space is a bare text.
   */
  function Parse(s: string): ProjectImportEventMessage {
    var i := FirstSpace(s);
    if i == |s| then ProjectImportEventMessage("", s)
    else ProjectImportEventMessage(s[..i], s[i + 1..])
  }

  /**
   * ToString loses nothing when the category holds no space and, for an empty
   * category, the text holds none either: Parse recovers the message.
   */
  lemma ToStringRoundTrip(m: ProjectImportEventMessage)
    requires ' ' !in m.category
    requires m.category == [] ==> ' ' !in m.text
    ensures Parse(m.ToString()) == m
  {
    var s := m.ToString();
    if m.category == [] {
      assert s == m.text;
    } else {
      var c := m.category;
      assert s == c + " " + m.text;
      var i := FirstSpace(s);
      assert s[|c|] == ' ';
      assert s[..i] == c;
      assert s[i + 1..] == m.text;
    }
  }
}
