/** URL normalisation (main.go's processFirebaseURL): keeps only strings that
    mention a Firebase real-time database host and reduces each to the root
    URL `scheme://host/` of that host. */
module Normalizer {
  import opened Types
  import Text

  /** The substring whose presence, in the lower-cased input, marks a
      Firebase database URL. */
  const FirebaseMarker := ".firebaseio.com"

  /** The components of a parsed URL that net/url's Parse yields and that
      matter here. `host` includes any port; user information is separate. */
  datatype Url = Url(scheme: string, userInfo: string, host: string, path: string, rawQuery: string, fragment: string)

  /** net/url's Parse, which this model does not re-implement: None when the
      string fails to parse, the components otherwise. */
  type UrlParser = string -> Option<Url>

  /** The canonical scan target of a parsed URL. */
  function RootUrl(u: Url): (r: string)
    ensures |r| == |u.scheme| + |u.host| + 4
    ensures r[..|u.scheme|] == u.scheme && r[|u.scheme|..|u.scheme| + 3] == "://"
    ensures r[|u.scheme| + 3..|r| - 1] == u.host && r[|r| - 1] == '/'
  {
    u.scheme + "://" + u.host + "/"
  }

  /** Is the Firebase marker present, ignoring the case of ASCII letters? */
  predicate MentionsFirebase(raw: string) {
    Text.Contains(Text.ToLower(raw), FirebaseMarker)
  }

  /** processFirebaseURL: "" rejects the input; otherwise the result is the
      root URL built from the parsed scheme and host. */
  function ProcessFirebaseUrl(raw: string, parse: UrlParser): (r: string)
    ensures !MentionsFirebase(raw) ==> r == ""
    ensures MentionsFirebase(raw) && parse(raw).None? ==> r == ""
    ensures MentionsFirebase(raw) && parse(raw).Some? ==> r == RootUrl(parse(raw).value)
  {
    if !MentionsFirebase(raw) then ""
    else match parse(raw)
      case None => ""
      case Some(u) => RootUrl(u)
  }

  /** The result is non-empty exactly when the input is accepted, so "" is an
      unambiguous rejection. */
  lemma AcceptedIffNonEmpty(raw: string, parse: UrlParser)
    ensures ProcessFirebaseUrl(raw, parse) != "" <==> MentionsFirebase(raw) && parse(raw).Some?
  {
    if MentionsFirebase(raw) && parse(raw).Some? {
      assert |ProcessFirebaseUrl(raw, parse)| >= 4;
    }
  }

  /** User information, path, query and fragment never reach the result: two
      parses that agree on scheme and host give the same target. */
  lemma OnlySchemeAndHostMatter(raw: string, parse1: UrlParser, parse2: UrlParser)
    requires parse1(raw).Some? <==> parse2(raw).Some?
    requires parse1(raw).Some? ==>
               parse1(raw).value.scheme == parse2(raw).value.scheme && parse1(raw).value.host == parse2(raw).value.host
    ensures ProcessFirebaseUrl(raw, parse1) == ProcessFirebaseUrl(raw, parse2)
  {
  }

  /** The marker test ignores ASCII case: if some slice of the input spells
      the marker in any mix of upper and lower case, the test passes. */
  lemma {:induction false} MarkerAnyCase(raw: string, i: int)
    requires 0 <= i && i + |FirebaseMarker| <= |raw|
    requires Text.ToLower(raw[i..i + |FirebaseMarker|]) == FirebaseMarker
    ensures MentionsFirebase(raw)
  {
    Text.ToLowerSlice(raw, i, i + |FirebaseMarker|);
    assert Text.OccursAt(Text.ToLower(raw), FirebaseMarker, i);
    Text.ContainsIff(Text.ToLower(raw), FirebaseMarker);
  }

  /** The marker test looks at the whole string, not at the host: whatever
      host the parser finds, an input that spells the marker anywhere (in its
      path, say) and parses is reduced to that host's root. */
  lemma {:induction false} MarkerNotTiedToHost(raw: string, i: int, parse: UrlParser, u: Url)
    requires Text.OccursAt(raw, FirebaseMarker, i)
    requires parse(raw) == Some(u)
    ensures ProcessFirebaseUrl(raw, parse) == RootUrl(u)
  {
    Text.ToLowerOfLower(FirebaseMarker);
    MarkerAnyCase(raw, i);
  }

  /** A parse with empty scheme and host (net/url's reading of a bare host
      name such as `abc.firebaseio.com`, which it takes for a path) yields
      the target `:///`, the same for every such input. */
  lemma {:induction false} SchemelessRoot(raw: string, i: int, parse: UrlParser, u: Url)
    requires Text.OccursAt(raw, FirebaseMarker, i)
    requires parse(raw) == Some(u) && u.scheme == "" && u.host == ""
    ensures ProcessFirebaseUrl(raw, parse) == ":///"
  {
    MarkerNotTiedToHost(raw, i, parse, u);
  }
}
