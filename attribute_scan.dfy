/**
 * The forward scan over the attributes region of an unclosed tag
 * (Parser/XmlContextParser.cs:227-305): a small state machine with the
 * flags `inQuote` and `afterEquals`, the open quote's character and index,
 * the attribute name seen last, and the set of attributes whose quoted value
 * has closed.
 */
module AttributeScan {
  import opened Wrappers
  import opened XmlText

  /** The scan's local variables. `currentAttrName` is `None` where the
      source's variable is null. */
  datatype AttrState = AttrState(
    currentAttrName: Option<string>,
    inQuote: bool,
    quoteChar: char,
    quoteStart: int,
    afterEquals: bool,
    existingAttrs: set<string>)

  /** The state before the first character. */
  const InitialState := AttrState(None, false, '\0', -1, false, {})

  /** One turn of the loop at index i (< position): the next index and the
      new state. */
  function AttrStep(text: string, i: nat, position: nat, st: AttrState): (r: (nat, AttrState))
    requires i < position <= |text|
    ensures i < r.0 <= position
  {
    var ch := text[i];
    if st.inQuote then
      if ch == st.quoteChar then
        var existing := if st.currentAttrName.Some? then st.existingAttrs + {StripPrefix(st.currentAttrName.value)}
                        else st.existingAttrs;
        (i + 1, AttrState(None, false, st.quoteChar, st.quoteStart, false, existing))
      else (i + 1, st)
    else if ch == '"' || ch == '\'' then
      (i + 1, st.(inQuote := true, quoteChar := ch, quoteStart := i))
    else if ch == '=' then
      (i + 1, st.(afterEquals := true))
    else if IsWhiteSpace(ch) then
      if !st.afterEquals && st.currentAttrName.Some? then (i + 1, st.(currentAttrName := None))
      else (i + 1, st)
    else if IsNameStartChar(ch) then
      var nameEnd := NameRunEnd(text, i, position);
      var name := text[i..nameEnd];
      if !st.afterEquals then (nameEnd, st.(currentAttrName := Some(name)))
      else (nameEnd, st.(afterEquals := false))
    else (i + 1, st)
  }

  /** The state when the scan from index i reaches position. */
  function AttrScanFrom(text: string, i: nat, position: nat, st: AttrState): AttrState
    requires i <= position <= |text|
    decreases position - i
  {
    if i == position then st
    else
      var (next, st') := AttrStep(text, i, position, st);
      AttrScanFrom(text, next, position, st')
  }

  /** The state at the cursor after scanning text[attrsStart..position). */
  function AttrScan(text: string, attrsStart: nat, position: nat): AttrState
    requires attrsStart <= position <= |text|
  {
    AttrScanFrom(text, attrsStart, position, InitialState)
  }

  /** The forward loop of BuildAttributeContext, with the state in local
      variables as the source keeps it. */
  method ScanAttributes(text: string, attrsStart: nat, position: nat) returns (st: AttrState)
    requires attrsStart <= position <= |text|
    ensures st == AttrScan(text, attrsStart, position)
  {
    var i := attrsStart;
    var currentAttrName: Option<string> := None;
    var inQuote := false;
    var quoteChar := '\0';
    var quoteStart := -1;
    var afterEquals := false;
    var existingAttrs: set<string> := {};

    while i < position
      invariant attrsStart <= i <= position
      invariant AttrScanFrom(text, i, position, AttrState(currentAttrName, inQuote, quoteChar, quoteStart, afterEquals, existingAttrs))
             == AttrScan(text, attrsStart, position)
      decreases position - i
    {
      var ch := text[i];

      if inQuote {
        if ch == quoteChar {
          inQuote := false;
          if currentAttrName.Some? {
            existingAttrs := existingAttrs + {StripPrefix(currentAttrName.value)};
          }
          currentAttrName := None;
          afterEquals := false;
        }
        i := i + 1;
        continue;
      }

      if ch == '"' || ch == '\'' {
        inQuote := true;
        quoteChar := ch;
        quoteStart := i;
        i := i + 1;
        continue;
      }

      if ch == '=' {
        afterEquals := true;
        i := i + 1;
        continue;
      }

      if IsWhiteSpace(ch) {
        if !afterEquals && currentAttrName.Some? {
          // A bare name without '=' is not recorded.
          currentAttrName := None;
        }
        i := i + 1;
        continue;
      }

      if IsNameStartChar(ch) {
        var nameStart := i;
        i := ReadNameRun(text, i, position);
        var name := text[nameStart..i];
        if !afterEquals {
          currentAttrName := Some(name);
        } else {
          afterEquals := false;
        }
        continue;
      }

      // Skip '/' or other chars.
      i := i + 1;
    }
    st := AttrState(currentAttrName, inQuote, quoteChar, quoteStart, afterEquals, existingAttrs);
  }

  // ---------------------------------------------------------------------------
  // What the scan means
  // ---------------------------------------------------------------------------

  /** An attribute is recorded only by a closing quote, and what is recorded
      is the prefix-stripped name of the attribute the quote belongs to. */
  lemma StepRecordsOnlyAtClosingQuote(text: string, i: nat, position: nat, st: AttrState)
    requires i < position <= |text|
    ensures var st' := AttrStep(text, i, position, st).1;
      st'.existingAttrs == st.existingAttrs ||
      (st.inQuote && text[i] == st.quoteChar && st.currentAttrName.Some? &&
       st'.existingAttrs == st.existingAttrs + {StripPrefix(st.currentAttrName.value)})
  {
  }

  /** A bare name followed by whitespace is forgotten without being
      recorded. */
  lemma BareNameIsDropped(text: string, i: nat, position: nat, st: AttrState)
    requires i < position <= |text|
    requires !st.inQuote && !st.afterEquals && st.currentAttrName.Some?
    requires IsWhiteSpace(text[i])
    ensures var st' := AttrStep(text, i, position, st).1;
      st'.currentAttrName == None && st'.existingAttrs == st.existingAttrs
  {
  }

  /** The recorded set only grows as the scan goes on. */
  lemma {:induction false} ScanKeepsRecorded(text: string, i: nat, position: nat, st: AttrState)
    requires i <= position <= |text|
    ensures st.existingAttrs <= AttrScanFrom(text, i, position, st).existingAttrs
    decreases position - i
  {
    if i < position {
      var (next, st') := AttrStep(text, i, position, st);
      StepRecordsOnlyAtClosingQuote(text, i, position, st);
      ScanKeepsRecorded(text, next, position, st');
    }
  }

  /** The character at i closes the quoted value of the attribute whose name
      the scan holds. */
  predicate ClosesAttribute(text: string, i: nat, position: nat, st: AttrState) {
    i < position <= |text| && st.inQuote && text[i] == st.quoteChar && st.currentAttrName.Some?
  }

  /** The quote that closes an attribute's value records its prefix-stripped
      name and ends the quoted value. */
  lemma ClosingQuoteRecordsName(text: string, i: nat, position: nat, st: AttrState)
    requires ClosesAttribute(text, i, position, st)
    ensures var st' := AttrStep(text, i, position, st).1;
      st'.existingAttrs == st.existingAttrs + {StripPrefix(st.currentAttrName.value)} &&
      !st'.inQuote && st'.currentAttrName == None
  {
  }

  /** The scan started at index j in state stj comes to index i in state st. */
  predicate Passes(text: string, j: nat, position: nat, stj: AttrState, i: nat, st: AttrState)
    requires j <= position <= |text|
    decreases position - j
  {
    (j == i && stj == st) ||
    (j < position &&
     Passes(text, AttrStep(text, j, position, stj).0, position, AttrStep(text, j, position, stj).1, i, st))
  }

  /** The scan through a state it passes ends where the scan from that state
      ends. */
  lemma {:induction false} PassesKeepsScan(text: string, j: nat, position: nat, stj: AttrState, i: nat, st: AttrState)
    requires j <= position <= |text|
    requires Passes(text, j, position, stj, i, st)
    ensures j <= i <= position
    ensures AttrScanFrom(text, j, position, stj) == AttrScanFrom(text, i, position, st)
    decreases position - j
  {
    if !(j == i && stj == st) {
      var (next, st') := AttrStep(text, j, position, stj);
      PassesKeepsScan(text, next, position, st', i, st);
    }
  }

  /** An attribute whose closing quote the scan meets stays recorded to the
      end of the scan. */
  lemma ClosedAttributeIsRecorded(text: string, i: nat, position: nat, st: AttrState)
    requires ClosesAttribute(text, i, position, st)
    ensures StripPrefix(st.currentAttrName.value) in AttrScanFrom(text, i, position, st).existingAttrs
  {
    var (next, st') := AttrStep(text, i, position, st);
    ClosingQuoteRecordsName(text, i, position, st);
    ScanKeepsRecorded(text, next, position, st');
  }

  /** Completeness of the recorded set: what any state on the way holds is
      kept, and every attribute whose value the scan sees closed is in it. */
  lemma PassedAttributeIsRecorded(text: string, attrsStart: nat, position: nat, i: nat, st: AttrState)
    requires attrsStart <= position <= |text|
    requires Passes(text, attrsStart, position, InitialState, i, st)
    ensures st.existingAttrs <= AttrScan(text, attrsStart, position).existingAttrs
    ensures ClosesAttribute(text, i, position, st) ==>
      StripPrefix(st.currentAttrName.value) in AttrScan(text, attrsStart, position).existingAttrs
  {
    PassesKeepsScan(text, attrsStart, position, InitialState, i, st);
    ScanKeepsRecorded(text, i, position, st);
    if ClosesAttribute(text, i, position, st) {
      ClosedAttributeIsRecorded(text, i, position, st);
    }
  }

  /** Soundness of the recorded set, from any state: a name recorded on the
      way was recorded by a closing quote the scan passes. */
  lemma {:induction false} RecordedFromClosingQuote(text: string, j: nat, position: nat, stj: AttrState, x: string)
    returns (i: nat, st: AttrState)
    requires j <= position <= |text|
    requires x in AttrScanFrom(text, j, position, stj).existingAttrs && x !in stj.existingAttrs
    ensures Passes(text, j, position, stj, i, st)
    ensures ClosesAttribute(text, i, position, st) && StripPrefix(st.currentAttrName.value) == x
    decreases position - j
  {
    var (next, st') := AttrStep(text, j, position, stj);
    StepRecordsOnlyAtClosingQuote(text, j, position, stj);
    if x in st'.existingAttrs {
      i, st := j, stj;
    } else {
      i, st := RecordedFromClosingQuote(text, next, position, st', x);
    }
  }

  /** Every recorded name is the prefix-stripped name of an attribute whose
      closing quote the scan passes. */
  lemma RecordedAttributeWasClosed(text: string, attrsStart: nat, position: nat, x: string)
    returns (i: nat, st: AttrState)
    requires attrsStart <= position <= |text|
    requires x in AttrScan(text, attrsStart, position).existingAttrs
    ensures Passes(text, attrsStart, position, InitialState, i, st)
    ensures ClosesAttribute(text, i, position, st) && StripPrefix(st.currentAttrName.value) == x
  {
    i, st := RecordedFromClosingQuote(text, attrsStart, position, InitialState, x);
  }

  /** While a quote is open, quoteStart holds the opening quote, inside the
      region scanned so far, and no later character closes it. */
  predicate OpenQuoteInv(text: string, lo: nat, i: nat, st: AttrState)
    requires i <= |text|
  {
    st.inQuote ==>
      lo <= st.quoteStart < i && IsQuote(st.quoteChar) && text[st.quoteStart] == st.quoteChar &&
      forall k :: st.quoteStart < k < i ==> text[k] != st.quoteChar
  }

  lemma StepKeepsOpenQuoteInv(text: string, lo: nat, i: nat, position: nat, st: AttrState)
    requires lo <= i < position <= |text|
    requires OpenQuoteInv(text, lo, i, st)
    ensures var (next, st') := AttrStep(text, i, position, st); OpenQuoteInv(text, lo, next, st')
  {
    var ch := text[i];
    if !st.inQuote && !IsQuote(ch) && ch != '=' && !IsWhiteSpace(ch) && IsNameStartChar(ch) {
      var (next, st') := AttrStep(text, i, position, st);
      assert !st'.inQuote;
    }
  }

  lemma {:induction false} ScanKeepsOpenQuoteInv(text: string, lo: nat, i: nat, position: nat, st: AttrState)
    requires lo <= i <= position <= |text|
    requires OpenQuoteInv(text, lo, i, st)
    ensures OpenQuoteInv(text, lo, position, AttrScanFrom(text, i, position, st))
    decreases position - i
  {
    if i < position {
      var (next, st') := AttrStep(text, i, position, st);
      StepKeepsOpenQuoteInv(text, lo, i, position, st);
      ScanKeepsOpenQuoteInv(text, lo, next, position, st');
    }
  }

  /** At the cursor, an open quote started inside the attributes region and
      nothing after it closes it. */
  lemma OpenQuoteAtCursor(text: string, attrsStart: nat, position: nat)
    requires attrsStart <= position <= |text|
    ensures OpenQuoteInv(text, attrsStart, position, AttrScan(text, attrsStart, position))
  {
    ScanKeepsOpenQuoteInv(text, attrsStart, attrsStart, position, InitialState);
  }

  /** The open quote lies inside the attributes region, before the cursor. */
  lemma OpenQuoteInRegion(text: string, attrsStart: nat, position: nat)
    requires attrsStart <= position <= |text|
    ensures var st := AttrScan(text, attrsStart, position);
      st.inQuote ==> attrsStart <= st.quoteStart < position
  {
    OpenQuoteAtCursor(text, attrsStart, position);
  }

  // ---------------------------------------------------------------------------
  // The attribute name being typed (Parser/XmlContextParser.cs:324-338)
  // ---------------------------------------------------------------------------

  /** Where the name partial starts: the start of the run of name characters
      that ends at the cursor, not before attrsStart; position when there is
      no such run. */
  function AttrPartialStart(text: string, attrsStart: nat, position: nat): (r: nat)
    requires attrsStart <= position <= |text|
  {
    if position > attrsStart then NameRunStart(text, attrsStart, position - 1) as nat else position
  }

  /** `while (back >= attrsStart && IsNameChar(text[back])) back--; back++;` */
  method ScanNameBackward(text: string, attrsStart: nat, position: nat) returns (start: nat)
    requires attrsStart <= position <= |text|
    ensures start == AttrPartialStart(text, attrsStart, position)
  {
    start := position;
    if position > attrsStart {
      var back: int := position - 1;
      while back >= attrsStart && IsNameChar(text[back])
        invariant attrsStart - 1 <= back < position
        invariant NameRunStart(text, attrsStart, back) == NameRunStart(text, attrsStart, position - 1)
        decreases back
      {
        back := back - 1;
      }
      back := back + 1;
      start := back;
    }
  }

  /** The partial is the maximal run of name characters that ends at the
      cursor and starts no earlier than attrsStart. */
  lemma AttrPartialIsMaximalNameRun(text: string, attrsStart: nat, position: nat)
    requires attrsStart <= position <= |text|
    ensures var s := AttrPartialStart(text, attrsStart, position);
      attrsStart <= s <= position &&
      (forall k :: s <= k < position ==> IsNameChar(text[k])) &&
      (s > attrsStart ==> !IsNameChar(text[s - 1]))
  {
    if position > attrsStart {
      NameRunStartIsNameChars(text, attrsStart, position - 1);
    }
  }
}
