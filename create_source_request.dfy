/** The request body for creating a source, and the Bean Validation constraints on it. */
module Requests {
  import opened Wrappers
  import opened JavaText
  import opened Entities

  /** Every field may arrive null. */
  datatype CreateSourceRequest = CreateSourceRequest(
    name: Option<string>,
    url: Option<string>,
    mode: Option<SourceMode>,
    filterKeywords: Option<seq<Option<string>>>,
    filterRegex: Option<seq<Option<string>>>,
    intervalMinutes: Option<int>)

  const MinInterval: int := 1
  const MaxInterval: int := 10080  // one week, in minutes

  /** @NotBlank as Hibernate Validator checks it: non-null and non-empty after String.trim. */
  predicate NotBlank(s: Option<string>): (b: bool)
    ensures b <==> s.Some? && exists k :: 0 <= k < |s.value| && !IsTrimmable(s.value[k])
  {
    s.Some? && Trim(s.value) != ""
  }

  /** The characters `.` does not match in a java.util.regex pattern without flags. */
  predicate IsLineTerminator(c: char) {
    c == '\n' || c == '\r' || c as int == 0x85 || c as int == 0x2028 || c as int == 0x2029
  }

  /** What @Pattern(regexp = "^https?://.*") accepts, read off the pattern symbol by symbol:
      the literal "http", an optional "s", the literal "://", then `.*` to the end. */
  predicate MatchesUrlPattern(s: string): (b: bool)
    ensures b ==> StartsWith(s, "http://") || StartsWith(s, "https://")
  {
    && StartsWith(s, "http")
    && var afterHttp := s[4..];
       assert StartsWith(afterHttp, "://") ==> s[..7] == s[..4] + afterHttp[..3];
       assert StartsWith(afterHttp, "s://") ==> s[..8] == s[..4] + afterHttp[..4];
       || (StartsWith(afterHttp, "://") && DotStar(afterHttp[3..]))
       || (StartsWith(afterHttp, "s://") && DotStar(afterHttp[4..]))
  }

  /** `.*` matches the whole of `s`. */
  predicate DotStar(s: string)
    decreases |s|
  {
    s == [] || (!IsLineTerminator(s[0]) && DotStar(s[1..]))
  }

  /** The same language stated directly: an http or https scheme and a single line. */
  predicate IsHttpUrl(s: string) {
    && (StartsWith(s, "http://") || StartsWith(s, "https://"))
    && forall k :: 0 <= k < |s| ==> !IsLineTerminator(s[k])
  }

  /** The declarative constraints of CreateSourceRequest. A constraint other than @NotBlank
      and @NotNull accepts null; filterKeywords and filterRegex are unconstrained. */
  predicate Valid(r: CreateSourceRequest): (b: bool)
    // the NOT NULL columns name, url and mode are supplied
    ensures b ==> r.name.Some? && r.url.Some? && r.mode.Some?
    ensures b ==> StartsWith(r.url.value, "http://") || StartsWith(r.url.value, "https://")
    ensures b ==> MinInterval <= r.intervalMinutes.GetOr(DefaultIntervalMinutes) <= MaxInterval
  {
    && NotBlank(r.name) && 1 <= |r.name.value| <= 255
    && NotBlank(r.url) && MatchesUrlPattern(r.url.value)
    && r.mode.Some?
    && (r.intervalMinutes.Some? ==> MinInterval <= r.intervalMinutes.value <= MaxInterval)
  }

  lemma {:induction false} DotStarIsSingleLine(s: string)
    ensures DotStar(s) <==> forall k :: 0 <= k < |s| ==> !IsLineTerminator(s[k])
    decreases |s|
  {
    if s != [] {
      DotStarIsSingleLine(s[1..]);
      assert forall k :: 1 <= k < |s| ==> s[k] == s[1..][k - 1];
    }
  }

  /** The URL pattern accepts exactly the single-line http:// and https:// strings. */
  lemma UrlPatternIsHttpUrl(s: string)
    ensures MatchesUrlPattern(s) <==> IsHttpUrl(s)
  {
    if |s| >= 7 && s[..7] == "http://" {
      DotStarIsSingleLine(s[7..]);
      assert s[..4] == "http" && s[4..][..3] == "://";
      assert s[4..][3..] == s[7..];
      assert forall k :: 7 <= k < |s| ==> s[k] == s[7..][k - 7];
    }
    if |s| >= 8 && s[..8] == "https://" {
      DotStarIsSingleLine(s[8..]);
      assert s[..4] == "http" && s[4..][..4] == "s://";
      assert s[4..][4..] == s[8..];
      assert forall k :: 8 <= k < |s| ==> s[k] == s[8..][k - 8];
    }
    if StartsWith(s, "http") {
      var t := s[4..];
      if StartsWith(t, "://") {
        assert s[..7] == "http://";
      }
      if StartsWith(t, "s://") {
        assert s[..8] == "https://";
      }
    }
  }

  /** A valid request names an http(s) URL and an interval within one week. */
  lemma ValidRequestShape(r: CreateSourceRequest)
    requires Valid(r)
    ensures IsHttpUrl(r.url.value)
    ensures MinInterval <= r.intervalMinutes.GetOr(DefaultIntervalMinutes) <= MaxInterval
  {
    UrlPatternIsHttpUrl(r.url.value);
  }
}
