/** Cleaning of text input by Django form fields, as the ArticleForm of news_app/forms.py and the
    admin's model forms apply it: a CharField strips leading and trailing whitespace (strip=True is
    the default) and refuses a value that contains a NUL character. */
module Forms {
  /** Python's str.isspace for one character: the characters str.strip() removes. */
  predicate IsSpace(c: char) {
    || c == ' '
    || ('\t' <= c <= '\r')
    || ('\U{1C}' <= c <= '\U{1F}')
    || c == '\U{85}' || c == '\U{A0}' || c == '\U{1680}'
    || ('\U{2000}' <= c <= '\U{200A}')
    || c == '\U{2028}' || c == '\U{2029}' || c == '\U{202F}' || c == '\U{205F}' || c == '\U{3000}'
  }

  /** The end of the run of whitespace that starts at index `i`. */
  function LeadingEnd(s: string, i: nat): (n: nat)
    requires i <= |s|
    ensures i <= n <= |s|
    ensures forall j :: i <= j < n ==> IsSpace(s[j])
    ensures n < |s| ==> !IsSpace(s[n])
    decreases |s| - i
  {
    if i < |s| && IsSpace(s[i]) then LeadingEnd(s, i + 1) else i
  }

  /** The start of the run of whitespace that ends at index `m`, looking no further left than `lo`. */
  function TrailingStart(s: string, lo: nat, m: nat): (n: nat)
    requires lo <= m <= |s|
    ensures lo <= n <= m
    ensures forall j :: n <= j < m ==> IsSpace(s[j])
    ensures n > lo ==> !IsSpace(s[n - 1])
    decreases m
  {
    if m > lo && IsSpace(s[m - 1]) then TrailingStart(s, lo, m - 1) else m
  }

  /** str.strip(): whitespace removed at both ends, so what is kept neither starts nor ends with
      whitespace. */
  function Strip(s: string): (r: string)
    ensures |r| <= |s|
    ensures r == [] || (!IsSpace(r[0]) && !IsSpace(r[|r| - 1]))
  {
    var k := LeadingEnd(s, 0);
    s[k..TrailingStart(s, k, |s|)]
  }

  /** What stripping keeps is the slice of `s` after the `k` leading whitespace characters, and
      what it removes at either end is whitespace. */
  lemma StripSlice(s: string) returns (k: nat)
    ensures k + |Strip(s)| <= |s| && Strip(s) == s[k..k + |Strip(s)|]
    ensures forall i :: 0 <= i < k ==> IsSpace(s[i])
    ensures forall i :: k + |Strip(s)| <= i < |s| ==> IsSpace(s[i])
  {
    k := LeadingEnd(s, 0);
  }

  /** A value strips to nothing exactly when it is all whitespace: "   " is a blank field. */
  lemma StripEmptyIffBlank(s: string)
    ensures Strip(s) == [] <==> forall i :: 0 <= i < |s| ==> IsSpace(s[i])
  {
    var r := Strip(s);
    var k := StripSlice(s);
    if r != [] {
      assert s[k] == r[0];
    }
  }

  /** A value that neither starts nor ends with whitespace is unchanged by stripping. */
  lemma StripKeepsTrimmed(s: string)
    requires s == [] || (!IsSpace(s[0]) && !IsSpace(s[|s| - 1]))
    ensures Strip(s) == s
  {
    if s != [] {
      assert LeadingEnd(s, 0) == 0;
      assert TrailingStart(s, 0, |s|) == |s|;
      assert s[0..|s|] == s;
    }
  }

  /** A value without surrounding whitespace and without NUL that fits `maxLength` is accepted by
      both kinds of required field and stored unchanged. */
  lemma TrimmedIsAccepted(s: string, maxLength: nat)
    requires s != [] && !IsSpace(s[0]) && !IsSpace(s[|s| - 1])
    requires '\0' !in s && |s| <= maxLength
    ensures Strip(s) == s && RequiredCharValid(s, maxLength) && RequiredTextValid(s)
  {
    StripKeepsTrimmed(s);
  }

  /** Cleaning a cleaned value again changes nothing. */
  lemma StripIdempotent(s: string)
    ensures Strip(Strip(s)) == Strip(s)
  {
    StripKeepsTrimmed(Strip(s));
  }

  /** A required CharField with `max_length` accepts the value: what is left after stripping is
      not empty, fits `max_length`, and contains no NUL character. */
  predicate RequiredCharValid(s: string, maxLength: nat) {
    var v := Strip(s);
    v != [] && |v| <= maxLength && '\0' !in v
  }

  /** A required TextField accepts the value: not blank after stripping, and no NUL character. */
  predicate RequiredTextValid(s: string) {
    var v := Strip(s);
    v != [] && '\0' !in v
  }

  /** The same rule on the raw input: some character is not whitespace, the stripped value fits,
      and no character at all is NUL (stripping removes only whitespace, never a NUL). */
  lemma RequiredCharValidIff(s: string, maxLength: nat)
    ensures RequiredCharValid(s, maxLength) <==>
      && (exists i :: 0 <= i < |s| && !IsSpace(s[i]))
      && |Strip(s)| <= maxLength
      && '\0' !in s
  {
    StripEmptyIffBlank(s);
    var v := Strip(s);
    var k := StripSlice(s);
    if '\0' in s {
      var i :| 0 <= i < |s| && s[i] == '\0';
      assert !IsSpace(s[i]);
      assert k <= i < k + |v|;
      assert v[i - k] == '\0';
    }
    if '\0' in v {
      var j :| 0 <= j < |v| && v[j] == '\0';
      assert s[k + j] == '\0';
    }
  }
}
