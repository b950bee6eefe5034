/**
 * The collaborators whose code is not part of this model: Jsoup, java.util.regex,
 * String.toLowerCase, SHA-256 and java.net.http. Each library function is a field of
 * Toolkit, so the model makes no assumption about it beyond its type.
 */
module Libraries {
  import opened JavaText

  /** A SHA-256 digest: 32 bytes. */
  type Digest = d: seq<byte> | |d| == 32 witness seq(32, _ => 0)

  datatype Toolkit = Toolkit(
    /** Jsoup.parse(html).text(): the plain text of an HTML fragment */
    text: string -> string,
    /** Jsoup.clean(html, Safelist.relaxed()) */
    clean: string -> string,
    /** String.toLowerCase() in the default locale */
    toLowerCase: string -> string,
    /** Pattern.compile(p, Pattern.CASE_INSENSITIVE) returns without throwing */
    compiles: string -> bool,
    /** the compiled pattern p finds a match somewhere in the text */
    finds: (string, string) -> bool,
    /** MessageDigest.getInstance("SHA-256").digest(bytes) */
    sha256: seq<byte> -> Digest)

  /** What HttpClient.send yields: a response, or an IOException / InterruptedException. */
  datatype HttpResponse<Body> = ConnectionFailed | Response(statusCode: int, body: Body)
}
