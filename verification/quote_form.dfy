/** The quote form controller: on submit every required field's trimmed value must be
    non-empty; an empty one gets a red border and one inline "This field is required"
    marker, and the submission stops with an error notification. A valid submission
    shows the busy button, and 1.5 s later (an explicit step here) a success
    notification, a form reset and the restored button. Typing in a field clears that
    field's border and marker. */
module QuoteForm {
  import Overlays

  const MissingFieldsMessage: string := "Please fill in all required fields."
  const ThanksMessage: string :=
    "Thank you! Your quote request has been submitted. We will contact you within 24 hours."

  // ---------------------------------------------------------------------------
  // String.prototype.trim

  /** The characters trim removes at both ends: the ECMAScript WhiteSpace
      (tab, VT, FF, space, NBSP, BOM and the Unicode space separators) and
      LineTerminator (LF, CR, LS, PS) code points. */
  predicate IsTrimmable(c: char)
  {
    c == '\t' || c == '\U{000B}' || c == '\U{000C}' || c == ' ' || c == '\U{00A0}' ||
    c == '\U{FEFF}' || c == '\U{1680}' || ('\U{2000}' <= c <= '\U{200A}') ||
    c == '\U{202F}' || c == '\U{205F}' || c == '\U{3000}' ||
    c == '\n' || c == '\r' || c == '\U{2028}' || c == '\U{2029}'
  }

  /** Drops the leading trimmable characters. */
  function TrimStart(s: string): (r: string)
    ensures |r| <= |s|
  {
    if s != [] && IsTrimmable(s[0]) then TrimStart(s[1..]) else s
  }

  /** Drops the trailing trimmable characters. */
  function TrimEnd(s: string): (r: string)
    ensures |r| <= |s|
  {
    if s != [] && IsTrimmable(s[|s| - 1]) then TrimEnd(s[..|s| - 1]) else s
  }

  /** TrimStart gives the suffix of s that starts at its first character trim keeps. */
  lemma {:induction false} TrimStartSuffix(s: string)
    ensures TrimStart(s) == s[|s| - |TrimStart(s)|..]
    ensures TrimStart(s) == [] || !IsTrimmable(TrimStart(s)[0])
    ensures forall i :: 0 <= i < |s| - |TrimStart(s)| ==> IsTrimmable(s[i])
  {
    if s != [] && IsTrimmable(s[0]) {
      TrimStartSuffix(s[1..]);
    }
  }

  /** TrimEnd gives the prefix of s that ends at its last character trim keeps. */
  lemma {:induction false} TrimEndPrefix(s: string)
    ensures TrimEnd(s) == s[..|TrimEnd(s)|]
    ensures TrimEnd(s) == [] || !IsTrimmable(TrimEnd(s)[|TrimEnd(s)| - 1])
    ensures forall i :: |TrimEnd(s)| <= i < |s| ==> IsTrimmable(s[i])
  {
    if s != [] && IsTrimmable(s[|s| - 1]) {
      TrimEndPrefix(s[..|s| - 1]);
    }
  }

  /** r is the slice s[k..k + |r|] and everything of s around it is trimmable. */
  predicate TrimmedAt(s: string, k: nat, r: string)
  {
    k + |r| <= |s| && r == s[k..k + |r|] &&
    (forall i :: 0 <= i < k ==> IsTrimmable(s[i])) &&
    (forall i :: k + |r| <= i < |s| ==> IsTrimmable(s[i]))
  }

  /** `String.prototype.trim`: a slice of s, surrounded only by trimmable characters,
      that neither starts nor ends with one. */
  function Trim(s: string): (r: string)
    ensures exists k :: TrimmedAt(s, k, r)
    ensures r == [] || (!IsTrimmable(r[0]) && !IsTrimmable(r[|r| - 1]))
  {
    var t := TrimStart(s);
    TrimStartSuffix(s);
    TrimEndPrefix(t);
    var k := |s| - |t|;
    assert TrimmedAt(s, k, TrimEnd(t)) by {
      assert t[..|TrimEnd(t)|] == s[k..k + |TrimEnd(t)|];
      forall i | k + |TrimEnd(t)| <= i < |s|
        ensures IsTrimmable(s[i])
      {
        assert s[i] == t[i - k];
      }
    }
    TrimEnd(t)
  }

  /** The per-field rule: `field.value.trim()` is non-empty. A value it rejects is
      made only of whitespace and line terminators. */
  predicate Filled(value: string)
    ensures !Filled(value) ==> forall i :: 0 <= i < |value| ==> IsTrimmable(value[i])
  {
    Trim(value) != []
  }

  /** A value passes exactly when it holds some character trim does not remove. */
  lemma FilledIffVisibleChar(value: string)
    ensures Filled(value) <==> exists i :: 0 <= i < |value| && !IsTrimmable(value[i])
  {
    var t := TrimStart(value);
    var k := |value| - |t|;
    TrimStartSuffix(value);
    TrimEndPrefix(t);
    if exists i :: 0 <= i < |value| && !IsTrimmable(value[i]) {
      var i :| 0 <= i < |value| && !IsTrimmable(value[i]);
      assert k <= i;
      assert t[i - k] == value[i];
      assert |TrimEnd(t)| > i - k;
    }
  }

  // ---------------------------------------------------------------------------
  // Fields

  /** A form control. `flagged` is the red border (style.borderColor = '#dc3545');
      `markers` counts the error-message elements in the control's own form group,
      appended after the control, so the control's next element sibling is a marker
      exactly when markers > 0. */
  datatype Field = Field(value: string, defaultValue: string, required: bool, flagged: bool, markers: nat)

  /** One pass of the submit handler's validation over a field. A required field that
      is empty after trimming is flagged and gets a marker unless one already follows
      it; a filled one loses its border and its first marker. Other fields are not
      visited. */
  function Checked(f: Field): (r: Field)
    ensures r.value == f.value && r.defaultValue == f.defaultValue && r.required == f.required
    ensures !f.required ==> r == f
    ensures f.required ==> r.flagged == !Filled(f.value)
    ensures f.markers <= 1 ==> r.markers <= 1
    ensures f.required && f.markers <= 1 ==> (r.markers == 1 <==> !Filled(f.value))
  {
    if !f.required then f
    else if !Filled(f.value) then
      f.(flagged := true, markers := if f.markers == 0 then 1 else f.markers)
    else
      f.(flagged := false, markers := if f.markers == 0 then 0 else f.markers - 1)
  }

  /** Submitting again with the same values changes nothing more: no second marker. */
  lemma RecheckChangesNothing(f: Field)
    requires f.markers <= 1
    ensures Checked(Checked(f)) == Checked(f)
  {
  }

  /** The input listener on a field, after the browser stored the typed value: the
      border goes and the first marker in the field's group is removed. */
  function AfterInput(f: Field, newValue: string): (r: Field)
    ensures r.value == newValue && !r.flagged
    ensures r.required == f.required && r.defaultValue == f.defaultValue
    ensures f.markers <= 1 ==> r.markers == 0
    ensures f.markers > 0 ==> r.markers < f.markers
  {
    f.(value := newValue, flagged := false, markers := if f.markers == 0 then 0 else f.markers - 1)
  }

  /** `form.reset()`: every control gets its default value back; borders and markers
      are left as they are. */
  function Reset(fs: seq<Field>): (r: seq<Field>)
    ensures |r| == |fs|
    ensures forall i :: 0 <= i < |fs| ==> r[i] == fs[i].(value := fs[i].defaultValue)
  {
    seq(|fs|, i requires 0 <= i < |fs| => fs[i].(value := fs[i].defaultValue))
  }

  ghost predicate AllRequiredFilled(fs: seq<Field>)
  {
    forall i :: 0 <= i < |fs| && fs[i].required ==> Filled(fs[i].value)
  }

  /** The submit button's content: the original label, or the spinner with "Sending...". */
  datatype ButtonFace = Idle | Sending

  /** The document after showNotification(message, kind) from the given state: the
      first notification evicted, the new one appended, both notification style
      elements present, and the scroll lock and Escape listeners as they were. */
  ghost predicate NotificationShown(doc: Overlays.Document, body: seq<Overlays.Overlay>, head: seq<string>,
                                    scrollLocked: bool, listeners: seq<nat>, nextId: nat,
                                    message: string, kind: Overlays.Kind)
    reads doc
  {
    doc.body == Overlays.WithoutFirstNotification(body) + [Overlays.Notification(nextId, message, kind, false)] &&
    doc.head == Overlays.EnsureStyle(Overlays.EnsureStyle(head, Overlays.NotificationStylesId),
                                     Overlays.NotificationAnimationsId) &&
    doc.scrollLocked == scrollLocked && doc.escapeListeners == listeners && doc.nextId == nextId + 1
  }

  class Form {
    var fields: seq<Field>
    var face: ButtonFace
    var disabled: bool
    /** One entry per scheduled 1.5 s completion, in firing order: the button content
        captured by that submission, which the completion puts back. */
    var pendingFaces: seq<ButtonFace>

    /** At most one marker per field. */
    ghost predicate Valid()
      reads this
    {
      forall i :: 0 <= i < |fields| ==> fields[i].markers <= 1
    }

    constructor (initial: seq<Field>)
      requires forall i :: 0 <= i < |initial| ==> initial[i].markers == 0 && !initial[i].flagged
      ensures Valid()
      ensures fields == initial && face == Idle && !disabled && pendingFaces == []
    {
      fields := initial;
      face := Idle;
      disabled := false;
      pendingFaces := [];
    }

    /** The submit handler's validation pass over the fields (the forEach over the
        required controls). The result is true exactly when every required field is
        filled. */
    method ValidateFields() returns (isValid: bool)
      requires Valid()
      modifies this
      ensures Valid()
      ensures isValid <==> AllRequiredFilled(old(fields))
      ensures |fields| == |old(fields)|
      ensures forall i :: 0 <= i < |fields| ==> fields[i] == Checked(old(fields)[i])
      ensures face == old(face) && disabled == old(disabled) && pendingFaces == old(pendingFaces)
    {
      isValid := true;
      var i := 0;
      while i < |fields|
        invariant 0 <= i <= |fields| == |old(fields)|
        invariant forall j :: 0 <= j < i ==> fields[j] == Checked(old(fields)[j])
        invariant forall j :: i <= j < |fields| ==> fields[j] == old(fields)[j]
        invariant isValid <==> forall j :: 0 <= j < i && old(fields)[j].required ==> Filled(old(fields)[j].value)
        invariant face == old(face) && disabled == old(disabled) && pendingFaces == old(pendingFaces)
      {
        var field := fields[i];
        if field.required {
          if !Filled(field.value) {
            isValid := false;
            if field.markers == 0 {
              field := field.(markers := 1);
            }
            field := field.(flagged := true);
          } else {
            if field.markers > 0 {
              field := field.(markers := field.markers - 1);
            }
            field := field.(flagged := false);
          }
          fields := fields[i := field];
        }
        assert fields[i] == Checked(old(fields)[i]);
        i := i + 1;
      }
    }

    /** The submit handler. It goes past validation exactly when every required field is
        filled; otherwise it shows the error notification and leaves the button alone. */
    method Submit(doc: Overlays.Document) returns (proceeded: bool)
      requires Valid() && doc.Valid()
      modifies this, doc
      ensures Valid() && doc.Valid()
      ensures proceeded <==> AllRequiredFilled(old(fields))
      ensures |fields| == |old(fields)|
      ensures forall i :: 0 <= i < |fields| ==> fields[i] == Checked(old(fields)[i])
      ensures !proceeded ==>
                face == old(face) && disabled == old(disabled) && pendingFaces == old(pendingFaces) &&
                NotificationShown(doc, old(doc.body), old(doc.head), old(doc.scrollLocked),
                                  old(doc.escapeListeners), old(doc.nextId), MissingFieldsMessage, Overlays.Error)
      ensures !proceeded ==>
                Overlays.Notifications(doc.body) ==
                  [Overlays.Notification(old(doc.nextId), MissingFieldsMessage, Overlays.Error, false)]
      ensures old(doc.ListenersLive()) ==> doc.ListenersLive()
      ensures proceeded ==>
                face == Sending && disabled && pendingFaces == old(pendingFaces) + [old(face)] &&
                unchanged(doc)
    {
      var isValid := ValidateFields();
      if !isValid {
        var _ := doc.ShowNotification(MissingFieldsMessage, Overlays.Error);
        return false;
      }
      pendingFaces := pendingFaces + [face];
      face := Sending;
      disabled := true;
      return true;
    }

    /** The 1.5 s timer of the oldest pending submission fires. */
    method CompleteSubmission(doc: Overlays.Document)
      requires Valid() && doc.Valid() && pendingFaces != []
      modifies this, doc
      ensures Valid() && doc.Valid()
      ensures NotificationShown(doc, old(doc.body), old(doc.head), old(doc.scrollLocked),
                                old(doc.escapeListeners), old(doc.nextId), ThanksMessage, Overlays.Success)
      ensures Overlays.Notifications(doc.body) ==
                [Overlays.Notification(old(doc.nextId), ThanksMessage, Overlays.Success, false)]
      ensures old(doc.ListenersLive()) ==> doc.ListenersLive()
      ensures fields == Reset(old(fields))
      ensures face == old(pendingFaces)[0] && !disabled && pendingFaces == old(pendingFaces)[1..]
    {
      var _ := doc.ShowNotification(ThanksMessage, Overlays.Success);
      fields := Reset(fields);
      face := pendingFaces[0];
      pendingFaces := pendingFaces[1..];
      disabled := false;
    }

    /** An input event on field k carrying the typed value. Only field k changes. */
    method Input(k: nat, newValue: string)
      requires Valid() && k < |fields|
      modifies this
      ensures Valid()
      ensures fields == old(fields)[k := AfterInput(old(fields)[k], newValue)]
      ensures fields[k].markers == 0 && !fields[k].flagged
      ensures face == old(face) && disabled == old(disabled) && pendingFaces == old(pendingFaces)
    {
      var field := fields[k].(value := newValue);
      field := field.(flagged := false);
      if field.markers > 0 {
        field := field.(markers := field.markers - 1);
      }
      fields := fields[k := field];
    }
  }
}
