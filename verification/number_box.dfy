/** The integer box of the user interface: a text box holding a 32-bit value kept within
    `[MinValue, MaxValue]`. Typing is filtered, pasting splices the digits of the pasted
    text in at the caret, the up and down buttons step the value, and every change of the
    stored value rewrites the text as the value's decimal rendering. Only the pure logic
    of the control is modelled; the box's properties are the fields of `NumberBox`. */
module NumberBox {
  import opened Wrappers
  import opened Text

  /** The box's `MinValue`, `MaxValue`, `DefaultValue`, `StoredValue` and `Text`. */
  datatype NumberBox = NumberBox(minValue: int, maxValue: int, defaultValue: int, stored: int, text: string)

  /** Every number the box holds is a 32-bit integer. */
  predicate Valid(b: NumberBox) {
    IsInt32(b.minValue) && IsInt32(b.maxValue) && IsInt32(b.defaultValue) && IsInt32(b.stored)
  }

  // ---------------------------------------------------------------------------
  // UpdateStoredValue

  /** The value `UpdateStoredValue` stores: too large becomes `MaxValue`, otherwise too
      small becomes `MinValue`. */
  function Clamp(value: int, lo: int, hi: int): (r: int)
    ensures lo <= hi ==> lo <= r <= hi
    ensures lo <= value <= hi ==> r == value
    ensures r == value || r == lo || r == hi
  {
    if value > hi then hi else if value < lo then lo else value
  }

  /** For a non-empty range the clamp is the reference `min(max(value, lo), hi)`. */
  lemma ClampIsMinMax(value: int, lo: int, hi: int)
    requires lo <= hi
    ensures Clamp(value, lo, hi) == Min(Max(value, lo), hi)
  {
  }

  function Min(a: int, b: int): int {
    if a <= b then a else b
  }

  function Max(a: int, b: int): int {
    if a >= b then a else b
  }

  /** `UpdateStoredValue`: the clamped value is stored unless it equals the stored one,
      and storing a new value rewrites the text as its rendering. */
  function UpdateStoredValue(b: NumberBox, value: int): (r: NumberBox)
    ensures r.minValue == b.minValue && r.maxValue == b.maxValue && r.defaultValue == b.defaultValue
    ensures b.minValue <= b.maxValue ==> b.minValue <= r.stored <= b.maxValue
    ensures b.minValue <= value <= b.maxValue ==> r.stored == value
    ensures value > b.maxValue ==> r.stored == b.maxValue
    ensures value < b.minValue && value <= b.maxValue ==> r.stored == b.minValue
    ensures Valid(b) && IsInt32(value) ==> Valid(r)
    ensures r.stored == b.stored ==> r == b
    ensures r.stored != b.stored ==> r.text == IntToString(r.stored)
  {
    var v := Clamp(value, b.minValue, b.maxValue);
    if b.stored == v then b else b.(stored := v, text := IntToString(v))
  }

  /** Storing the same value twice is storing it once. */
  lemma UpdateIdempotent(b: NumberBox, value: int)
    ensures UpdateStoredValue(UpdateStoredValue(b, value), value) == UpdateStoredValue(b, value)
  {
  }

  // ---------------------------------------------------------------------------
  // The up and down buttons

  /** `OnUpButtonClick`. */
  function Up(b: NumberBox): (r: NumberBox)
    ensures b.stored >= b.maxValue ==> r == b
    ensures b.minValue <= b.stored < b.maxValue ==> r.stored == b.stored + 1 && r.text == IntToString(b.stored + 1)
    ensures Valid(b) ==> Valid(r)
  {
    if b.stored < b.maxValue then UpdateStoredValue(b, b.stored + 1) else b
  }

  /** `OnDownButtonClick`. */
  function Down(b: NumberBox): (r: NumberBox)
    ensures b.stored <= b.minValue ==> r == b
    ensures b.minValue < b.stored <= b.maxValue ==> r.stored == b.stored - 1 && r.text == IntToString(b.stored - 1)
    ensures Valid(b) ==> Valid(r)
  {
    if b.stored > b.minValue then UpdateStoredValue(b, b.stored - 1) else b
  }

  /** Within the range, down undoes up and up undoes down. */
  lemma UpThenDown(b: NumberBox)
    requires b.minValue <= b.stored < b.maxValue
    ensures Down(Up(b)).stored == b.stored
    ensures Down(Up(b)).text == IntToString(b.stored)
  {
  }

  lemma DownThenUp(b: NumberBox)
    requires b.minValue < b.stored <= b.maxValue
    ensures Up(Down(b)).stored == b.stored
    ensures Up(Down(b)).text == IntToString(b.stored)
  {
  }

  // ---------------------------------------------------------------------------
  // Text typed and changed

  /** A character the number pattern keeps: a decimal digit or '-'. */
  predicate Kept(c: char) {
    IsDigit(c) || c == '-'
  }

  /** `OnPreviewTextInput`: typed text is refused when it is not blank and holds a
      character other than a digit or '-'. */
  predicate Refused(typed: string) {
    !IsBlank(typed) && exists k :: 0 <= k < |typed| && !Kept(typed[k])
  }

  /** Typed text is refused exactly when it is not blank and filtering would change it. */
  lemma RefusedIffFilterChanges(typed: string)
    ensures Refused(typed) <==> !IsBlank(typed) && NumberChars(typed) != typed
  {
    if exists k :: 0 <= k < |typed| && !Kept(typed[k]) {
      var k :| 0 <= k < |typed| && !Kept(typed[k]);
      FilterDrops(typed, k);
    } else {
      FilterKeepsAll(typed);
    }
  }

  /** `OnTextChanged`: blank text leaves the stored value alone; otherwise the parsed
      value, or `DefaultValue` when the text does not parse, is stored. */
  function TextChanged(b: NumberBox, text: string): (r: NumberBox)
    ensures r.minValue == b.minValue && r.maxValue == b.maxValue && r.defaultValue == b.defaultValue
    ensures IsBlank(text) ==> r == b.(text := text)
    ensures !IsBlank(text) && TryParseInt32(text).Some? && b.minValue <= TryParseInt32(text).value <= b.maxValue ==>
      r.stored == TryParseInt32(text).value
    ensures !IsBlank(text) && TryParseInt32(text).Some? ==> r.stored == Clamp(TryParseInt32(text).value, b.minValue, b.maxValue)
    ensures !IsBlank(text) && TryParseInt32(text).None? ==> r.stored == Clamp(b.defaultValue, b.minValue, b.maxValue)
    ensures Valid(b) ==> Valid(r)
  {
    var typed := b.(text := text);
    if IsBlank(text) then typed
    else UpdateStoredValue(typed, match TryParseInt32(text) case Some(v) => v case None => b.defaultValue)
  }

  /** Rewriting the text after a change of the stored value raises the text-changed
      event again; the rewritten text parses back to the stored value, so that second
      event changes nothing. */
  lemma TextChangedSettles(b: NumberBox, text: string)
    requires Valid(b) && b.minValue <= b.maxValue
    ensures var r := TextChanged(b, text);
      r.text != text ==> TextChanged(r, r.text) == r
  {
    var r := TextChanged(b, text);
    if r.text != text {
      assert r.stored != b.stored && r.text == IntToString(r.stored);
      RenderingReparsed(r.stored);
      assert r.(text := r.text) == r;
      assert TextChanged(r, r.text) == UpdateStoredValue(r, r.stored);
    }
  }

  /** The rendering of a 32-bit value is not blank and parses back to it. */
  lemma RenderingReparsed(v: int)
    requires IsInt32(v)
    ensures !IsBlank(IntToString(v))
    ensures TryParseInt32(IntToString(v)) == Some(v)
  {
    var s := IntToString(v);
    assert IsDigit(s[0]) || s[0] == '-';
    assert !IsWhiteSpace(s[0]);
    ParseOfIntToString(v);
  }

  // ---------------------------------------------------------------------------
  // Pasting

  /** `Regex("[^\d-]").Replace(input, "")`: the digits and '-' of the input, in order. */
  function NumberChars(input: string): (r: string)
    ensures |r| <= |input|
    ensures forall k :: 0 <= k < |r| ==> Kept(r[k])
  {
    if |input| == 0 then []
    else (if Kept(input[0]) then [input[0]] else []) + NumberChars(input[1..])
  }

  /** Filtering distributes over concatenation. */
  lemma {:induction false} NumberCharsAppend(a: string, b: string)
    ensures NumberChars(a + b) == NumberChars(a) + NumberChars(b)
    decreases |a|
  {
    if |a| == 0 {
      assert a + b == b;
    } else {
      assert (a + b)[1..] == a[1..] + b;
      NumberCharsAppend(a[1..], b);
    }
  }

  /** Text made of digits and '-' passes unchanged. */
  lemma {:induction false} FilterKeepsAll(s: string)
    requires forall k :: 0 <= k < |s| ==> Kept(s[k])
    ensures NumberChars(s) == s
    decreases |s|
  {
    if |s| > 0 {
      FilterKeepsAll(s[1..]);
    }
  }

  /** A character outside the pattern makes the filtered text shorter. */
  lemma {:induction false} FilterDrops(s: string, k: nat)
    requires k < |s| && !Kept(s[k])
    ensures |NumberChars(s)| < |s|
    decreases |s|
  {
    if k > 0 {
      FilterDrops(s[1..], k - 1);
    }
  }

  /** Filtering twice is filtering once. */
  lemma FilterIdempotent(s: string)
    ensures NumberChars(NumberChars(s)) == NumberChars(s)
  {
    FilterKeepsAll(NumberChars(s));
  }

  /** The text after a paste: the filtered input inserted at the caret, cut to the
      maximum length. */
  function Spliced(text: string, caret: nat, nums: string, maxLength: nat): string
    requires caret <= |text|
  {
    var whole := text[..caret] + nums + text[caret..];
    whole[..Min(maxLength, |whole|)]
  }

  /** `OnPaste`: without text on the clipboard the paste is left to the text box
      (`None`); otherwise the box's text is rebuilt one position at a time up to its
      maximum length, from the text before the caret, the filtered input and the text
      after the caret, and the caret moves to the end. */
  method Paste(text: string, caret: nat, maxLength: nat, clipboard: Option<string>) returns (r: Option<(string, nat)>)
    requires caret <= |text|
    ensures clipboard.None? <==> r.None?
    ensures clipboard.Some? ==>
      && r.value.0 == Spliced(text, caret, NumberChars(clipboard.value), maxLength)
      && r.value.1 == |r.value.0|
      && |r.value.0| <= maxLength
  {
    if clipboard.None? {
      return None;
    }
    var nums := NumberChars(clipboard.value);
    ghost var whole := text[..caret] + nums + text[caret..];
    var built := "";
    var i := 0;
    while i < maxLength
      invariant 0 <= i <= maxLength
      invariant built == whole[..Min(i, |whole|)]
    {
      if i < caret {
        built := built + [text[i]];
      } else if i < caret + |nums| {
        built := built + [nums[i - caret]];
      } else if i < |text| + |nums| {
        built := built + [text[i - |nums|]];
      }
      i := i + 1;
    }
    return Some((built, |built|));
  }

  /** Pasting only digits at the end of a box with room keeps the old text in front. */
  lemma PasteAtEnd(text: string, nums: string, maxLength: nat)
    requires |text| + |nums| <= maxLength
    ensures Spliced(text, |text|, nums, maxLength) == text + nums
  {
    assert text[|text|..] == [];
    assert text[..|text|] == text;
  }

  // ---------------------------------------------------------------------------
  // UpdateMaxLength

  /** `UpdateMaxLength`: the longer of the renderings of the two bounds. */
  function MaxLength(lo: int, hi: int): (r: nat)
    ensures r >= |IntToString(lo)| && r >= |IntToString(hi)|
    ensures r == |IntToString(lo)| || r == |IntToString(hi)|
  {
    Max(|IntToString(lo)|, |IntToString(hi)|)
  }

  /** Every value in range fits in the box. */
  lemma ValuesFit(lo: int, hi: int, v: int)
    requires lo <= v <= hi
    ensures |IntToString(v)| <= MaxLength(lo, hi)
  {
    if v >= 0 {
      NatToStringLengthMonotonic(v, hi);
    } else {
      NatToStringLengthMonotonic(-v, -lo);
    }
  }
}
