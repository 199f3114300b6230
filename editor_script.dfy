/**
 * The browser side of the classic-editor assistant (assets/js/editor-script.js,
 * and the copy of saveSelection/replaceAtSelection inlined in
 * wp-content-helper.php): the saved selection, the replace-at-selection
 * splice, the modal's tabs and text areas, the click guards around each
 * request and the "Replace Selected Text" button.
 *
 * The document is a flat text buffer and a DOM Range is an interval
 * [start, end) over it. window.getSelection() is a parameter of the
 * handlers that read it.
 */
module EditorScript {
  import opened Wrappers
  import opened Php

  // ---------------------------------------------------------------------
  // String.prototype.trim
  // ---------------------------------------------------------------------

  /** The characters trim() removes: ECMAScript WhiteSpace and LineTerminator. */
  predicate IsJsSpace(c: char) {
    || c == '\t' || c == '\n' || c == '\U{000B}' || c == '\U{000C}' || c == '\r' || c == ' '
    || c == '\U{00A0}' || c == '\U{1680}' || ('\U{2000}' <= c <= '\U{200A}')
    || c == '\U{2028}' || c == '\U{2029}' || c == '\U{202F}' || c == '\U{205F}'
    || c == '\U{3000}' || c == '\U{FEFF}'
  }

  /** Length of the run of spaces at the start of s. */
  function LeadingSpaces(s: string): (n: nat)
    ensures n <= |s|
    ensures forall i :: 0 <= i < n ==> IsJsSpace(s[i])
    ensures n < |s| ==> !IsJsSpace(s[n])
  {
    if s == [] || !IsJsSpace(s[0]) then 0 else 1 + LeadingSpaces(s[1..])
  }

  /** Length of the run of spaces at the end of s. */
  function TrailingSpaces(s: string): (n: nat)
    ensures n <= |s|
    ensures forall i :: |s| - n <= i < |s| ==> IsJsSpace(s[i])
    ensures n < |s| ==> !IsJsSpace(s[|s| - n - 1])
  {
    if s == [] || !IsJsSpace(s[|s| - 1]) then 0 else 1 + TrailingSpaces(s[..|s| - 1])
  }

  /**
   * trim(): the slice of s left after dropping the spaces at both ends.
   * Only spaces are dropped, and what is left neither starts nor ends
   * with one.
   */
  function Trim(s: string): (r: string)
    ensures |r| + LeadingSpaces(s) <= |s|
    ensures r == s[LeadingSpaces(s)..LeadingSpaces(s) + |r|]
    ensures forall i :: 0 <= i < LeadingSpaces(s) ==> IsJsSpace(s[i])
    ensures forall i :: LeadingSpaces(s) + |r| <= i < |s| ==> IsJsSpace(s[i])
    ensures r != [] ==> !IsJsSpace(r[0]) && !IsJsSpace(r[|r| - 1])
  {
    var rest := s[LeadingSpaces(s)..];
    rest[..|rest| - TrailingSpaces(rest)]
  }

  /** trim() is idempotent. */
  lemma TrimIdempotent(s: string)
    ensures Trim(Trim(s)) == Trim(s)
  {
    var r := Trim(s);
    assert LeadingSpaces(r) == 0;
    var rest := r[LeadingSpaces(r)..];
    assert rest == r;
    assert TrailingSpaces(r) == 0;
  }

  /** A string of spaces only trims to "", and JavaScript then treats it as false. */
  lemma {:induction false} TrimOfSpaces(s: string)
    requires forall i :: 0 <= i < |s| ==> IsJsSpace(s[i])
    ensures Trim(s) == ""
  {
    if s != [] {
      TrimOfSpaces(s[1..]);
      assert LeadingSpaces(s) == 1 + LeadingSpaces(s[1..]);
    }
  }

  /**
   * A non-space character of s survives trimming: trim() only ever removes
   * characters at the two ends.
   */
  lemma TrimKeepsInnerText(s: string, i: int)
    requires 0 <= i < |s| && !IsJsSpace(s[i])
    ensures LeadingSpaces(s) <= i < LeadingSpaces(s) + |Trim(s)|
    ensures Trim(s)[i - LeadingSpaces(s)] == s[i]
  {
  }

  /** trim() gives "" exactly for a string of spaces only. */
  lemma TrimEmptyIffSpaces(s: string)
    ensures Trim(s) == "" <==> forall i :: 0 <= i < |s| ==> IsJsSpace(s[i])
  {
    if forall i :: 0 <= i < |s| ==> IsJsSpace(s[i]) {
      TrimOfSpaces(s);
    } else {
      var i :| 0 <= i < |s| && !IsJsSpace(s[i]);
      TrimKeepsInnerText(s, i);
    }
  }

  // ---------------------------------------------------------------------
  // Ranges and the replace splice
  // ---------------------------------------------------------------------

  /** A DOM Range over the text buffer: [start, end). */
  datatype Span = Span(start: nat, end: nat)

  predicate Within(sp: Span, text: string) {
    sp.start <= sp.end <= |text|
  }

  /** Range.toString(): the selected characters. */
  function Selected(text: string, sp: Span): string
    requires Within(sp, text)
  {
    text[sp.start..sp.end]
  }

  /** deleteContents() then insertNode(newText) at the start of the range. */
  function Splice(text: string, sp: Span, newText: string): (r: string)
    requires Within(sp, text)
    ensures |r| == |text| - (sp.end - sp.start) + |newText|
    ensures r[..sp.start] == text[..sp.start]
    ensures r[sp.start..sp.start + |newText|] == newText
    ensures r[sp.start + |newText|..] == text[sp.end..]
  {
    var r := text[..sp.start] + newText + text[sp.end..];
    assert r[..sp.start] == text[..sp.start];
    assert r[sp.start..sp.start + |newText|] == newText;
    r
  }

  /** Putting the replaced characters back over the inserted text restores the buffer. */
  lemma SpliceUndo(text: string, sp: Span, newText: string)
    requires Within(sp, text)
    ensures var after := Splice(text, sp, newText);
      && Within(Span(sp.start, sp.start + |newText|), after)
      && Splice(after, Span(sp.start, sp.start + |newText|), Selected(text, sp)) == text
  {
    var after := Splice(text, sp, newText);
    var back := Splice(after, Span(sp.start, sp.start + |newText|), Selected(text, sp));
    assert back == text[..sp.start] + text[sp.start..sp.end] + text[sp.end..];
    assert text == text[..sp.start] + text[sp.start..sp.end] + text[sp.end..];
  }

  /**
   * Two clicks on one apply button: the first replace leaves the range
   * collapsed just past the inserted text, so the second deletes nothing
   * and the text ends up inserted twice.
   */
  lemma ApplyTwiceDuplicates(text: string, sp: Span, d: string)
    requires Within(sp, text)
    ensures var once := Splice(text, sp, d);
      var cursor := Span(sp.start + |d|, sp.start + |d|);
      && Within(cursor, once)
      && Splice(once, cursor, d) == text[..sp.start] + d + d + text[sp.end..]
  {
    var once := Splice(text, sp, d);
    var at := sp.start + |d|;
    assert once[..at] == text[..sp.start] + d by {
      assert once[..at] == once[..sp.start] + once[sp.start..at];
    }
    assert (text[..sp.start] + d) + d + text[sp.end..] == text[..sp.start] + d + d + text[sp.end..];
  }

  // ---------------------------------------------------------------------
  // The "Replace Selected Text" button's data-text attribute
  // ---------------------------------------------------------------------

  /** How the HTML parser rewrites one character of an attribute value: CR becomes LF, NUL becomes U+FFFD. */
  function NormalizeChar(c: char): char {
    if c == '\r' then '\n' else if c == '\0' then '\U{FFFD}' else c
  }

  /**
   * The HTML parser's newline and NUL handling of an attribute value: CR LF
   * and a lone CR become LF, and NUL becomes U+FFFD. No CR and no NUL is
   * left, and text with neither is unchanged.
   */
  function Normalize(s: string): (r: string)
    ensures '\r' !in r && '\0' !in r
    ensures '\r' !in s && '\0' !in s ==> r == s
  {
    if s == [] then []
    else if |s| >= 2 && s[0] == '\r' && s[1] == '\n' then "\n" + Normalize(s[2..])
    else [NormalizeChar(s[0])] + Normalize(s[1..])
  }

  /**
   * How the HTML parser reads an attribute value back: CR LF, CR and NUL
   * are normalized as Normalize does, and the character references &quot;
   * and &amp; become '"' and '&'. The parser knows many more references;
   * the corrected escape below never leaves any other in the attribute.
   */
  function DecodeAttribute(s: string): (r: string)
    ensures '\r' !in r && '\0' !in r
  {
    if |s| >= 6 && s[..6] == "&quot;" then "\"" + DecodeAttribute(s[6..])
    else if |s| >= 5 && s[..5] == "&amp;" then "&" + DecodeAttribute(s[5..])
    else if s == [] then []
    else if |s| >= 2 && s[0] == '\r' && s[1] == '\n' then "\n" + DecodeAttribute(s[2..])
    else [NormalizeChar(s[0])] + DecodeAttribute(s[1..])
  }

  /** The escaping showApplyButton does: every '"' becomes the reference &quot;, nothing else changes. */
  function EscapeQuotes(s: string): (r: string)
    ensures '"' !in r
  {
    if s == [] then []
    else (if s[0] == '"' then "&quot;" else [s[0]]) + EscapeQuotes(s[1..])
  }

  /**
   * Text holding the characters &quot; is escaped to itself, and the
   * browser reads the attribute back as a bare quote: the button inserts
   * different text from the one the model returned.
   */
  lemma EscapeQuotesLosesEntities()
    ensures EscapeQuotes("&quot;") == "&quot;"
    ensures DecodeAttribute(EscapeQuotes("&quot;")) == "\""
    ensures DecodeAttribute(EscapeQuotes("&quot;")) != "&quot;"
  {
    var s := "&quot;";
    assert EscapeQuotes(s) == [s[0]] + EscapeQuotes(s[1..]);
    assert EscapeQuotes(s[1..]) == s[1..] by {
      assert EscapeQuotes(s[5..]) == ";";
      assert EscapeQuotes(s[4..]) == "t;";
      assert EscapeQuotes(s[3..]) == "ot;";
      assert EscapeQuotes(s[2..]) == "uot;";
    }
    assert DecodeAttribute(s) == "\"" + DecodeAttribute(s[6..]);
  }

  /** Reading back a &quot; reference. */
  lemma DecodeQuot(t: string)
    ensures DecodeAttribute("&quot;" + t) == "\"" + DecodeAttribute(t)
  {
    var r := "&quot;" + t;
    assert r[..6] == "&quot;" && r[6..] == t;
  }

  /** Reading back a &amp; reference. */
  lemma DecodeAmp(t: string)
    ensures DecodeAttribute("&amp;" + t) == "&" + DecodeAttribute(t)
  {
    var r := "&amp;" + t;
    assert r[..5] == "&amp;" && r[5..] == t;
    assert !(|r| >= 6 && r[..6] == "&quot;") by { assert r[1] == 'a'; }
  }

  /** Reading back a CR LF pair: one LF. */
  lemma DecodeCrLf(t: string)
    ensures DecodeAttribute("\r\n" + t) == "\n" + DecodeAttribute(t)
  {
    var r := "\r\n" + t;
    assert r[0] == '\r' && r[1] == '\n' && r[2..] == t;
  }

  /** Reading back any other character: it is normalized on its own. */
  lemma DecodeOther(c: char, t: string)
    requires c != '&'
    requires c == '\r' ==> t == [] || t[0] != '\n'
    ensures DecodeAttribute([c] + t) == [NormalizeChar(c)] + DecodeAttribute(t)
  {
    var r := [c] + t;
    assert r[0] == c && r[1..] == t;
    assert !(|r| >= 6 && r[..6] == "&quot;") by { assert r[0] != '&'; }
    assert !(|r| >= 5 && r[..5] == "&amp;") by { assert r[0] != '&'; }
    assert !(|r| >= 2 && r[0] == '\r' && r[1] == '\n');
  }

  /**
   * Text without '&' survives the as-written escaping: the browser reads the
   * attribute back as the text that was escaped, up to the parser's newline
   * and NUL normalization.
   */
  lemma {:induction false} EscapeQuotesKeepsPlainText(s: string)
    requires '&' !in s
    ensures DecodeAttribute(EscapeQuotes(s)) == Normalize(s)
  {
    if s == [] {
    } else if s[0] == '"' {
      EscapeQuotesKeepsPlainText(s[1..]);
      DecodeQuot(EscapeQuotes(s[1..]));
    } else if |s| >= 2 && s[0] == '\r' && s[1] == '\n' {
      EscapeQuotesKeepsPlainText(s[2..]);
      assert EscapeQuotes(s) == "\r\n" + EscapeQuotes(s[2..]) by {
        assert EscapeQuotes(s[1..]) == "\n" + EscapeQuotes(s[2..]);
      }
      DecodeCrLf(EscapeQuotes(s[2..]));
    } else {
      EscapeQuotesKeepsPlainText(s[1..]);
      var rest := EscapeQuotes(s[1..]);
      assert s[0] == '\r' ==> rest == [] || rest[0] != '\n' by {
        if |s| >= 2 {
          assert rest == (if s[1] == '"' then "&quot;" else [s[1]]) + EscapeQuotes(s[2..]);
        }
      }
      DecodeOther(s[0], rest);
    }
  }

  /** How one character is written into the attribute. */
  function EscapeChar(c: char): string {
    if c == '"' then "&quot;" else if c == '&' then "&amp;" else [c]
  }

  /** Escapes '&' as well as '"', so that every reference in the attribute is one this function wrote. */
  function EscapeAttribute(s: string): (r: string)
    ensures '"' !in r
  {
    if s == [] then [] else EscapeChar(s[0]) + EscapeAttribute(s[1..])
  }

  /** r holds the reference &amp; or &quot; at position i. */
  predicate ReferenceAt(r: string, i: int) {
    (0 <= i && i + 5 <= |r| && r[i..i + 5] == "&amp;") || (0 <= i && i + 6 <= |r| && r[i..i + 6] == "&quot;")
  }

  /** A reference in the second half of a concatenation stays a reference, shifted. */
  lemma ReferenceAtShift(head: string, tail: string, j: int)
    requires ReferenceAt(tail, j)
    ensures ReferenceAt(head + tail, |head| + j)
  {
    var r := head + tail;
    if j + 5 <= |tail| && tail[j..j + 5] == "&amp;" {
      assert r[|head| + j..|head| + j + 5] == tail[j..j + 5];
    } else {
      assert r[|head| + j..|head| + j + 6] == tail[j..j + 6];
    }
  }

  /** Every '&' of an escaped attribute starts &amp; or &quot;. */
  lemma {:induction false} EscapedAmpersandsAreReferences(s: string, i: int)
    requires 0 <= i < |EscapeAttribute(s)| && EscapeAttribute(s)[i] == '&'
    ensures ReferenceAt(EscapeAttribute(s), i)
  {
    var r := EscapeAttribute(s);
    var head, tail := EscapeChar(s[0]), EscapeAttribute(s[1..]);
    assert r == head + tail;
    if i < |head| {
      assert r[..|head|] == head;
      if s[0] == '"' {
        assert head == "&quot;";
      } else {
        assert s[0] == '&' && head == "&amp;" by { assert r[i] == head[i]; }
      }
    } else {
      var j := i - |head|;
      assert tail[j] == '&' by { assert r[i] == tail[j]; }
      EscapedAmpersandsAreReferences(s[1..], j);
      ReferenceAtShift(head, tail, j);
    }
  }

  /**
   * The browser reads the escaped attribute back as the text that was
   * escaped, up to the parser's newline and NUL normalization.
   */
  lemma {:induction false} EscapeAttributeRoundTrip(s: string)
    ensures DecodeAttribute(EscapeAttribute(s)) == Normalize(s)
  {
    if s == [] {
    } else if |s| >= 2 && s[0] == '\r' && s[1] == '\n' {
      EscapeAttributeRoundTrip(s[2..]);
      assert EscapeAttribute(s) == "\r\n" + EscapeAttribute(s[2..]) by {
        assert EscapeAttribute(s[1..]) == "\n" + EscapeAttribute(s[2..]);
      }
      DecodeCrLf(EscapeAttribute(s[2..]));
    } else {
      EscapeAttributeRoundTrip(s[1..]);
      var rest := EscapeAttribute(s[1..]);
      assert EscapeAttribute(s) == EscapeChar(s[0]) + rest;
      assert Normalize(s) == [NormalizeChar(s[0])] + Normalize(s[1..]);
      if s[0] == '"' {
        DecodeQuot(rest);
      } else if s[0] == '&' {
        DecodeAmp(rest);
      } else {
        assert s[0] == '\r' ==> rest == [] || rest[0] != '\n' by {
          if |s| >= 2 {
            assert rest == EscapeChar(s[1]) + EscapeAttribute(s[2..]);
          }
        }
        DecodeOther(s[0], rest);
      }
    }
  }

  // ---------------------------------------------------------------------
  // The page state and its handlers
  // ---------------------------------------------------------------------

  datatype Tab = ImproveTab | GrammarTab | RewriteTab

  /** One $.ajax POST to admin-ajax.php (the nonce is left out). */
  datatype AjaxPost = AjaxPost(action: string, text: string, tone: Option<string>)

  function ActionFor(tab: Tab): string {
    match tab
    case ImproveTab => "aiwa_improve"
    case GrammarTab => "aiwa_grammar"
    case RewriteTab => "aiwa_rewrite"
  }

  /** What a click on a tab's submit button did. */
  datatype ClickResult = NoKey | NoText | Sent

  /** How a request ended for the page: a JSON reply, or the $.ajax error callback. */
  datatype AjaxResult = Response(success: bool, data: Value) | NetworkError

  /**
   * The click guard: the key flag, then the trimmed text (JavaScript treats
   * only "" as false), so the text is refused exactly when it is spaces only.
   */
  function ClickGuard(hasKey: bool, field: string): (r: ClickResult)
    ensures r == NoKey <==> !hasKey
    ensures r == NoText <==> hasKey && forall i :: 0 <= i < |field| ==> IsJsSpace(field[i])
    ensures r == Sent <==> hasKey && exists i :: 0 <= i < |field| && !IsJsSpace(field[i])
  {
    TrimEmptyIffSpaces(field);
    if !hasKey then NoKey else if Trim(field) == "" then NoText else Sent
  }

  class Editor {
    var text: string                    // the document, flattened
    var savedRange: Option<Span>        // savedRange (null until a selection is saved)
    var savedSelection: Option<string>  // savedSelection
    var modalOpen: bool                 // #aiwa-modal has class "show"
    var activeTab: Tab
    var fields: map<Tab, string>        // the value of #text-<tab>
    var busy: set<Tab>                  // submit buttons currently disabled
    var applyButtons: map<Tab, string>  // data-text of the apply button shown under a tab
    var posted: seq<AjaxPost>           // requests sent so far
    const hasKey: bool                  // aiwaData.hasKey

    predicate Valid()
      reads this
    {
      && (savedRange.Some? ==> Within(savedRange.value, text))
      && (forall t: Tab :: t in fields)
      && GrammarTab !in applyButtons
    }

    /** The page as it is when the script starts: nothing saved, modal closed, empty text areas. */
    constructor(document: string, hasKey: bool)
      ensures Valid()
      ensures text == document && this.hasKey == hasKey
      ensures savedRange.None? && savedSelection.None? && !modalOpen && activeTab == ImproveTab
      ensures fields == map[ImproveTab := "", GrammarTab := "", RewriteTab := ""]
      ensures busy == {} && applyButtons == map[] && posted == []
    {
      text := document;
      this.hasKey := hasKey;
      savedRange := None;
      savedSelection := None;
      modalOpen := false;
      activeTab := ImproveTab;
      fields := map[ImproveTab := "", GrammarTab := "", RewriteTab := ""];
      busy := {};
      applyButtons := map[];
      posted := [];
      new;
      forall t: Tab ensures t in fields {
        match t
        case ImproveTab =>
        case GrammarTab =>
        case RewriteTab =>
      }
    }

    /**
     * saveSelection(current): with no range, "" and nothing saved; with a
     * range, that range and its trimmed text are saved and the text returned.
     */
    method SaveSelection(current: Option<Span>) returns (selected: string)
      requires Valid()
      requires current.Some? ==> Within(current.value, text)
      modifies this`savedRange, this`savedSelection
      ensures Valid()
      ensures current.None? ==> selected == "" && savedRange == old(savedRange) && savedSelection == old(savedSelection)
      ensures current.Some? ==>
        && selected == Trim(Selected(text, current.value))
        && savedRange == current
        && savedSelection == Some(selected)
    {
      if current.None? {
        return "";
      }
      savedRange := current;
      selected := Trim(Selected(text, current.value));
      savedSelection := Some(selected);
    }

    /**
     * replaceAtSelection(newText): false and no change without a saved
     * range; otherwise the range's text is replaced by newText, the range
     * collapses to just after it and stays saved, and the result is true.
     */
    method ReplaceAtSelection(newText: string) returns (ok: bool)
      requires Valid()
      modifies this`text, this`savedRange
      ensures Valid()
      ensures ok <==> old(savedRange).Some?
      ensures !ok ==> text == old(text) && savedRange == old(savedRange)
      ensures ok ==>
        var sp := old(savedRange).value;
        && text == Splice(old(text), sp, newText)
        && savedRange == Some(Span(sp.start + |newText|, sp.start + |newText|))
    {
      if savedRange.None? {
        return false;
      }
      var sp := savedRange.value;
      text := Splice(text, sp, newText);
      var cursor := sp.start + |newText|;
      savedRange := Some(Span(cursor, cursor));
      return true;
    }

    /** The green button: save the selection, open the modal, and fill the active tab with a non-empty selection. */
    method OpenAssistant(current: Option<Span>)
      requires Valid()
      requires current.Some? ==> Within(current.value, text)
      modifies this`savedRange, this`savedSelection, this`modalOpen, this`fields
      ensures Valid()
      ensures modalOpen
      ensures current.None? ==> fields == old(fields) && savedRange == old(savedRange) && savedSelection == old(savedSelection)
      ensures current.Some? ==>
        var selected := Trim(Selected(text, current.value));
        && savedRange == current && savedSelection == Some(selected)
        && fields == if selected != "" then old(fields)[activeTab := selected] else old(fields)
    {
      var selected := SaveSelection(current);
      modalOpen := true;
      if selected != "" {
        fields := fields[activeTab := selected];
      }
    }

    /** The overlay or the close button: hide the modal. */
    method Close()
      requires Valid()
      modifies this`modalOpen
      ensures Valid()
      ensures !modalOpen
    {
      modalOpen := false;
    }

    /** A tab click: activate the tab and copy a non-empty saved selection into its text area. */
    method SwitchTab(tab: Tab)
      requires Valid()
      modifies this`activeTab, this`fields
      ensures Valid()
      ensures activeTab == tab
      ensures savedSelection.Some? && savedSelection.value != "" ==> fields == old(fields)[tab := savedSelection.value]
      ensures savedSelection.None? || savedSelection.value == "" ==> fields == old(fields)
    {
      activeTab := tab;
      if savedSelection.Some? && savedSelection.value != "" {
        fields := fields[tab := savedSelection.value];
      }
    }

    /**
     * mouseup/keyup anywhere while the modal is open: a non-empty trimmed
     * selection is saved and copied into the active tab.
     */
    method AutoFill(current: Option<Span>)
      requires Valid()
      requires current.Some? ==> Within(current.value, text)
      modifies this`savedRange, this`savedSelection, this`fields
      ensures Valid()
      ensures var selected := if current.None? then "" else Trim(Selected(text, current.value));
        if modalOpen && selected != "" then
          && savedRange == current && savedSelection == Some(selected)
          && fields == old(fields)[activeTab := selected]
        else
          savedRange == old(savedRange) && savedSelection == old(savedSelection) && fields == old(fields)
    {
      if modalOpen {
        var selected := if current.None? then "" else Trim(Selected(text, current.value));
        if selected != "" {
          var _ := SaveSelection(current);
          fields := fields[activeTab := selected];
        }
      }
    }

    /**
     * A click on a tab's submit button (which the browser delivers only
     * while the button is enabled): the key guard, then the trimmed-text
     * guard, and only then the button is disabled, the tab's old result
     * (apply button included) is cleared and one request is posted.
     */
    method Submit(tab: Tab, toneSelected: string) returns (result: ClickResult)
      requires Valid() && tab !in busy
      modifies this`busy, this`applyButtons, this`posted
      ensures Valid()
      ensures result == ClickGuard(hasKey, fields[tab])
      ensures result != Sent ==> busy == old(busy) && applyButtons == old(applyButtons) && posted == old(posted)
      ensures result == Sent ==>
        && busy == old(busy) + {tab}
        && applyButtons == old(applyButtons) - {tab}
        && posted == old(posted) + [AjaxPost(ActionFor(tab), Trim(fields[tab]),
                                             if tab == RewriteTab then Some(toneSelected) else None)]
    {
      if !hasKey {
        return NoKey;
      }
      var value := Trim(fields[tab]);
      if value == "" {
        return NoText;
      }
      busy := busy + {tab};
      applyButtons := applyButtons - {tab};
      posted := posted + [AjaxPost(ActionFor(tab), value, if tab == RewriteTab then Some(toneSelected) else None)];
      return Sent;
    }

    /**
     * The end of a tab's request: the button is enabled again whatever
     * happened; a successful improve or rewrite whose data is text gets an
     * apply button carrying that text.
     */
    method Complete(tab: Tab, result: AjaxResult)
      requires Valid()
      modifies this`busy, this`applyButtons
      ensures Valid()
      ensures busy == old(busy) - {tab}
      ensures tab != GrammarTab && result.Response? && result.success && result.data.Str? ==>
        applyButtons == old(applyButtons)[tab := EscapeQuotes(result.data.s)]
      ensures !(tab != GrammarTab && result.Response? && result.success && result.data.Str?) ==>
        applyButtons == old(applyButtons)
    {
      if tab != GrammarTab && result.Response? && result.success && result.data.Str? {
        applyButtons := applyButtons[tab := EscapeQuotes(result.data.s)];
      }
      busy := busy - {tab};
    }

    /**
     * A click on a tab's apply button: the text read back from data-text
     * replaces the saved selection; the modal closes only if that worked.
     */
    method ApplyClick(tab: Tab) returns (ok: bool)
      requires Valid() && tab in applyButtons
      modifies this`text, this`savedRange, this`modalOpen
      ensures Valid()
      ensures ok <==> old(savedRange).Some?
      ensures ok ==> text == Splice(old(text), old(savedRange).value, DecodeAttribute(applyButtons[tab]))
      ensures !ok ==> text == old(text) && savedRange == old(savedRange) && modalOpen == old(modalOpen)
      ensures ok ==> !modalOpen
      ensures ok ==>
        var cursor := old(savedRange).value.start + |DecodeAttribute(applyButtons[tab])|;
        savedRange == Some(Span(cursor, cursor))
    {
      var newText := DecodeAttribute(applyButtons[tab]);
      ok := ReplaceAtSelection(newText);
      if ok {
        modalOpen := false;
      }
    }
  }

  /**
   * With the corrected escape, the apply button inserts the text the server
   * returned where the selection was, whatever characters it holds, up to the
   * parser's newline and NUL normalization (exactly that text when it holds
   * no CR and no NUL).
   */
  lemma ApplyInsertsServerText(text: string, sp: Span, returned: string)
    requires Within(sp, text)
    ensures Splice(text, sp, DecodeAttribute(EscapeAttribute(returned))) == text[..sp.start] + Normalize(returned) + text[sp.end..]
  {
    EscapeAttributeRoundTrip(returned);
  }
}
