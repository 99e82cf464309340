/** The labelled text input used across the portal's forms
    (src/components/ui/form-field.tsx): its id, its accessibility attributes and
    the message paragraphs under it are all derived from its props. */
module FormField {
  import opened Common
  import opened JsString

  /** The props the field reads. `error` and `helperText` are optional strings and
      count only when non-empty; `optional` is false when not given. */
  datatype FieldProps = FieldProps(
    id: Option<string>,
    labelText: string,
    error: Option<string>,
    helperText: Option<string>,
    optional: bool)

  /** An optional string used as a condition: present and not "". */
  predicate Truthy(s: Option<string>) {
    s.Some? && s.value != []
  }

  predicate NoSpace(s: string) {
    forall k :: 0 <= k < |s| ==> !IsSpace(s[k])
  }

  /** `replace(/\s+/g, "-")`: each maximal run of white space becomes one hyphen,
      everything else is kept. */
  function Hyphenate(s: string): (r: string)
    ensures |r| <= |s|
    ensures NoSpace(r)
    ensures r == [] <==> s == []
    decreases |s|
  {
    if s == [] then []
    else if IsSpace(s[0]) then ['-'] + Hyphenate(s[SkipSpaceForward(s, 1)..])
    else [s[0]] + Hyphenate(s[1..])
  }

  /** A string without white space is left as it is. */
  lemma {:induction false} HyphenateKeepsSpaceFree(s: string)
    requires NoSpace(s)
    ensures Hyphenate(s) == s
  {
    if s != [] {
      HyphenateKeepsSpaceFree(s[1..]);
      assert s == [s[0]] + s[1..];
    }
  }

  /** Hyphenating twice is hyphenating once. */
  lemma HyphenateIdempotent(s: string)
    ensures Hyphenate(Hyphenate(s)) == Hyphenate(s)
  {
    HyphenateKeepsSpaceFree(Hyphenate(s));
  }

  /** Text before the first white space is copied through. */
  lemma {:induction false} HyphenatePlainPrefix(a: string, t: string)
    requires NoSpace(a)
    ensures Hyphenate(a + t) == a + Hyphenate(t)
  {
    if a == [] {
      assert a + t == t;
    } else {
      assert (a + t)[0] == a[0] && (a + t)[1..] == a[1..] + t;
      HyphenatePlainPrefix(a[1..], t);
      assert a == [a[0]] + a[1..];
    }
  }

  /** Skipping white space from inside a run stops where the run ends. */
  lemma {:induction false} SkipOverSpaces(w: string, b: string, i: nat)
    requires AllSpace(w) && (b == [] || !IsSpace(b[0]))
    requires i <= |w|
    ensures SkipSpaceForward(w + b, i) == |w|
    decreases |w| - i
  {
    if i < |w| {
      assert (w + b)[i] == w[i];
      SkipOverSpaces(w, b, i + 1);
    } else if b != [] {
      assert (w + b)[i] == b[0];
    }
  }

  /** A leading run of white space becomes one hyphen. */
  lemma HyphenateLeadingRun(w: string, b: string)
    requires w != [] && AllSpace(w) && (b == [] || !IsSpace(b[0]))
    ensures Hyphenate(w + b) == "-" + Hyphenate(b)
  {
    var t := w + b;
    assert t[0] == w[0];
    SkipOverSpaces(w, b, 1);
    assert t[|w|..] == b;
  }

  /** The whole rule on any input: text without white space, then a non-empty run
      of white space, then text not starting with white space, gives the text, one
      hyphen, and the rest hyphenated in turn. */
  lemma HyphenateRun(a: string, w: string, b: string)
    requires NoSpace(a) && w != [] && AllSpace(w) && (b == [] || !IsSpace(b[0]))
    ensures Hyphenate(a + w + b) == a + "-" + Hyphenate(b)
  {
    var t := w + b;
    calc {
      Hyphenate(a + w + b);
      { assert a + w + b == a + t; }
      Hyphenate(a + t);
      { HyphenatePlainPrefix(a, t); }
      a + Hyphenate(t);
      { HyphenateLeadingRun(w, b); }
      a + ("-" + Hyphenate(b));
    }
  }

  /** `id ?? label.toLowerCase().replace(/\s+/g, "-")`: a given id is used as it
      is, even "". */
  function InputId(p: FieldProps): (r: string)
    ensures p.id.Some? ==> r == p.id.value
    ensures p.id.None? ==> NoSpace(r) && (r == [] <==> p.labelText == [])
  {
    if p.id.Some? then p.id.value else Hyphenate(ToLower(p.labelText))
  }

  /** Lower-casing keeps white space and everything else apart. */
  lemma LowerKeepsNoSpace(s: string)
    requires NoSpace(s)
    ensures NoSpace(ToLower(s))
  {
    var lower := ToLower(s);
    forall k | 0 <= k < |lower|
      ensures !IsSpace(lower[k])
    {
      assert !IsSpace(s[k]);
    }
  }

  /** A label without white space gives its lower-case form as the id. */
  lemma SpaceFreeLabelId(p: FieldProps)
    requires p.id.None? && NoSpace(p.labelText)
    ensures InputId(p) == ToLower(p.labelText)
  {
    LowerKeepsNoSpace(p.labelText);
    HyphenateKeepsSpaceFree(ToLower(p.labelText));
  }

  /** Two words separated by white space give the lower-case words joined by a
      hyphen. */
  lemma TwoWordLabelId(p: FieldProps, first: string, w: string, second: string)
    requires p.id.None? && p.labelText == first + w + second
    requires NoSpace(first) && w != [] && AllSpace(w) && NoSpace(second)
    ensures InputId(p) == ToLower(first) + "-" + ToLower(second)
  {
    assert ToLower(first + w + second) == ToLower(first) + w + ToLower(second) by {
      var lw := ToLower(first + w + second);
      var rw := ToLower(first) + w + ToLower(second);
      forall k | 0 <= k < |lw| ensures lw[k] == rw[k] {
        if |first| <= k < |first| + |w| {
          assert (first + w + second)[k] == w[k - |first|];
        }
      }
    }
    LowerKeepsNoSpace(first);
    LowerKeepsNoSpace(second);
    HyphenateRun(ToLower(first), w, ToLower(second));
    HyphenateKeepsSpaceFree(ToLower(second));
  }

  /** The label "Full Name" gives the id "full-name". */
  lemma FullNameLabelId()
    ensures InputId(FieldProps(None, "Full Name", None, None, false)) == "full-name"
  {
    FullNameLabelWords();
    TwoWordLabelId(FieldProps(None, "Full Name", None, None, false), "Full", " ", "Name");
    FullNameLabelLower();
  }

  lemma FullNameLabelWords()
    ensures "Full" + " " + "Name" == "Full Name"
    ensures NoSpace("Full") && AllSpace(" ") && NoSpace("Name")
  {
  }

  lemma FullNameLabelLower()
    ensures ToLower("Full") + "-" + ToLower("Name") == "full-name"
  {
    assert ToLower("Full") == "full";
    assert ToLower("Name") == "name";
  }

  function ErrorId(p: FieldProps): string {
    InputId(p) + "-error"
  }

  function HelperId(p: FieldProps): string {
    InputId(p) + "-helper"
  }

  /** `aria-invalid={!!error}` */
  predicate AriaInvalid(p: FieldProps) {
    Truthy(p.error)
  }

  /** The paragraph `aria-describedby` names: the error, else the helper text, else
      none. */
  function AriaDescribedBy(p: FieldProps): (d: Option<string>)
    ensures d == Some(ErrorId(p)) <==> Truthy(p.error)
    ensures d.None? <==> !Truthy(p.error) && !Truthy(p.helperText)
  {
    assert |ErrorId(p)| != |HelperId(p)|;
    if Truthy(p.error) then Some(ErrorId(p))
    else if Truthy(p.helperText) then Some(HelperId(p))
    else None
  }

  predicate ShowsError(p: FieldProps) {
    Truthy(p.error)
  }

  /** The helper text yields to an error. */
  predicate ShowsHelper(p: FieldProps) {
    Truthy(p.helperText) && !Truthy(p.error)
  }

  predicate ShowsOptionalMarker(p: FieldProps) {
    p.optional
  }

  /** The ids of the paragraphs rendered under the input. */
  function RenderedIds(p: FieldProps): (ids: set<string>)
    ensures ErrorId(p) in ids <==> ShowsError(p)
    ensures HelperId(p) in ids <==> ShowsHelper(p)
    ensures |ids| <= 1
  {
    assert |ErrorId(p)| != |HelperId(p)|;
    if ShowsError(p) then {ErrorId(p)}
    else if ShowsHelper(p) then {HelperId(p)}
    else {}
  }

  /** `aria-describedby` always names the paragraph that is rendered, and is unset
      exactly when no paragraph is. The input is marked invalid exactly when the
      error paragraph shows. */
  lemma DescribedByResolves(p: FieldProps)
    ensures AriaDescribedBy(p).Some? ==> RenderedIds(p) == {AriaDescribedBy(p).value}
    ensures AriaDescribedBy(p).None? <==> RenderedIds(p) == {}
    ensures AriaInvalid(p) <==> ShowsError(p)
  {
    if AriaDescribedBy(p).None? {
      assert ErrorId(p) !in RenderedIds(p) && HelperId(p) !in RenderedIds(p);
    }
  }

  /** An empty error counts as no error: the helper text shows and the input is not
      marked invalid. */
  lemma EmptyErrorShowsHelper(p: FieldProps)
    requires p.error == Some([]) && Truthy(p.helperText)
    ensures !AriaInvalid(p) && ShowsHelper(p)
    ensures AriaDescribedBy(p) == Some(HelperId(p))
  {
  }
}
