/**
 * The character validators of src/validation.rs: a username may hold only
 * non-whitespace ASCII characters, a slug only ASCII letters, digits and
 * underscores. Each answers with a fixed message on failure.
 */
module Validation {
  import opened Wrappers
  import Text

  const NoSpacesMessage := "should be an ascii string without spaces"
  const SlugMessage := "invalid slug"

  predicate UsernameChar(c: char)
  {
    Text.IsAscii(c) && !Text.IsWhitespace(c)
  }

  predicate SlugChar(c: char)
  {
    Text.IsAsciiAlphanumeric(c) || c == '_'
  }

  /** chars().all(p), written as the recursion it performs. */
  predicate AllUsernameChars(s: string)
  {
    s == [] || (UsernameChar(s[0]) && AllUsernameChars(s[1..]))
  }

  predicate AllSlugChars(s: string)
  {
    s == [] || (SlugChar(s[0]) && AllSlugChars(s[1..]))
  }

  function IsAsciiNoSpaces(s: string): (r: Result<(), string>)
    ensures r.Ok? <==> forall i :: 0 <= i < |s| ==> UsernameChar(s[i])
    ensures r.Err? ==> r.error == NoSpacesMessage
  {
    AllUsernameCharsMeans(s);
    if AllUsernameChars(s) then Ok(()) else Err(NoSpacesMessage)
  }

  function IsValidSlug(s: string): (r: Result<(), string>)
    ensures r.Ok? <==> forall i :: 0 <= i < |s| ==> SlugChar(s[i])
    ensures r.Err? ==> r.error == SlugMessage
  {
    AllSlugCharsMeans(s);
    if AllSlugChars(s) then Ok(()) else Err(SlugMessage)
  }

  lemma {:induction false} AllUsernameCharsMeans(s: string)
    ensures AllUsernameChars(s) <==> forall i :: 0 <= i < |s| ==> UsernameChar(s[i])
  {
    if s != [] {
      AllUsernameCharsMeans(s[1..]);
      assert forall i :: 1 <= i < |s| ==> s[i] == s[1..][i - 1];
    }
  }

  lemma {:induction false} AllSlugCharsMeans(s: string)
    ensures AllSlugChars(s) <==> forall i :: 0 <= i < |s| ==> SlugChar(s[i])
  {
    if s != [] {
      AllSlugCharsMeans(s[1..]);
      assert forall i :: 1 <= i < |s| ==> s[i] == s[1..][i - 1];
    }
  }

  /** Both validators accept the empty string. */
  lemma EmptyPassesBoth()
    ensures IsAsciiNoSpaces("").Ok? && IsValidSlug("").Ok?
  {
  }

  /** Every valid slug is also a valid username. */
  lemma SlugIsAsciiNoSpaces(s: string)
    requires IsValidSlug(s).Ok?
    ensures IsAsciiNoSpaces(s).Ok?
  {
    forall i | 0 <= i < |s| ensures UsernameChar(s[i]) {
      assert SlugChar(s[i]);
    }
  }

  /** A string passes exactly when both of its halves pass. */
  lemma {:induction false} AsciiNoSpacesConcat(a: string, b: string)
    ensures IsAsciiNoSpaces(a + b).Ok? <==> IsAsciiNoSpaces(a).Ok? && IsAsciiNoSpaces(b).Ok?
  {
    assert forall i :: 0 <= i < |a| ==> (a + b)[i] == a[i];
    assert forall i :: 0 <= i < |b| ==> (a + b)[|a| + i] == b[i];
  }

  lemma {:induction false} ValidSlugConcat(a: string, b: string)
    ensures IsValidSlug(a + b).Ok? <==> IsValidSlug(a).Ok? && IsValidSlug(b).Ok?
  {
    assert forall i :: 0 <= i < |a| ==> (a + b)[i] == a[i];
    assert forall i :: 0 <= i < |b| ==> (a + b)[|a| + i] == b[i];
  }
}
