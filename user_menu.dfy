/** The avatar initials of the signed-in user (src/components/layout/user-menu.tsx):
    the first character of each space-separated part of the name, upper-cased and
    cut to two, or "AD" when there is no name. */
module UserMenu {
  import opened Common
  import opened JsString

  const FallbackInitials: string := "AD"

  /** `.map((n) => n[0]).join("")`: an empty part has no first character and adds
      nothing to the joined text. */
  function FirstChars(parts: seq<string>): (r: string)
    ensures |r| <= |parts|
  {
    if parts == [] then []
    else (if parts[0] != [] then [parts[0][0]] else []) + FirstChars(parts[1..])
  }

  /** `.slice(0, 2)` */
  function TakeTwo(s: string): (r: string)
    ensures |r| == (if |s| < 2 then |s| else 2)
    ensures r == s[..|r|]
  {
    if |s| <= 2 then s else s[..2]
  }

  /** `user.name ? <initials of the name> : "AD"`: an absent or empty name gives the
      fallback. */
  function Initials(name: Option<string>): (r: string)
    ensures |r| <= 2
    ensures name.None? || name == Some([]) ==> r == FallbackInitials
  {
    if name.Some? && name.value != [] then
      TakeTwo(ToUpper(FirstChars(Split(name.value, ' '))))
    else FallbackInitials
  }

  /** The characters of `s` that start a word: not a space, and at the start of
      `s` (when `atStart`) or right after a space. */
  function WordStartsFrom(s: string, atStart: bool): string {
    if s == [] then []
    else (if s[0] != ' ' && atStart then [s[0]] else []) + WordStartsFrom(s[1..], s[0] == ' ')
  }

  function WordStarts(s: string): string {
    WordStartsFrom(s, true)
  }

  /** Splitting on spaces and taking each part's first character picks exactly the
      word starts, in order. */
  lemma {:induction false} FirstCharsOfSplit(s: string)
    ensures FirstChars(Split(s, ' ')) == WordStartsFrom(s, true)
    ensures FirstChars(Split(s, ' ')[1..]) == WordStartsFrom(s, false)
  {
    if s != [] {
      FirstCharsOfSplit(s[1..]);
      var rest := Split(s[1..], ' ');
      if s[0] == ' ' {
        assert Split(s, ' ') == [[]] + rest;
        assert Split(s, ' ')[1..] == rest;
      } else {
        var parts := Split(s, ' ');
        assert parts == [[s[0]] + rest[0]] + rest[1..];
        assert parts[1..] == rest[1..];
        assert FirstChars(parts) == [s[0]] + FirstChars(rest[1..]);
      }
    }
  }

  /** The initials of a non-empty name are its first two word starts, upper-cased. */
  lemma InitialsAreWordStarts(name: string)
    requires name != []
    ensures Initials(Some(name)) == TakeTwo(ToUpper(WordStarts(name)))
  {
    FirstCharsOfSplit(name);
  }

  /** A name made only of spaces has no word starts: its initials are "", not the
      fallback. */
  lemma {:induction false} SpacesOnlyGiveNoInitials(name: string)
    requires name != [] && forall i :: 0 <= i < |name| ==> name[i] == ' '
    ensures Initials(Some(name)) == []
  {
    FirstCharsOfSplit(name);
    NoWordStartsInSpaces(name, true);
  }

  lemma {:induction false} NoWordStartsInSpaces(s: string, atStart: bool)
    requires forall i :: 0 <= i < |s| ==> s[i] == ' '
    ensures WordStartsFrom(s, atStart) == []
  {
    if s != [] {
      NoWordStartsInSpaces(s[1..], true);
    }
  }
}
