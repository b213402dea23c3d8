/** Turning the machine's host name into the topic prefix (mac2mqtt.go
    getHostname and getTopicPrefix): keep the text before the first '.',
    drop every character outside [a-zA-Z0-9_-], and put "mac2mqtt/" in front. */
module Hostname {

  /** A character the sanitiser keeps. */
  predicate IsTopicChar(c: char) {
    ('a' <= c <= 'z') || ('A' <= c <= 'Z') || ('0' <= c <= '9') || c == '_' || c == '-'
  }

  predicate AllTopicChars(s: string) {
    forall k :: 0 <= k < |s| ==> IsTopicChar(s[k])
  }

  /** strings.Split(h, ".")[0]: the longest prefix of h that holds no '.'. */
  function FirstLabel(h: string): (r: string)
    ensures r <= h && '.' !in r
    ensures r == h || h[|r|] == '.'
  {
    if |h| == 0 || h[0] == '.' then "" else [h[0]] + FirstLabel(h[1..])
  }

  /** The regexp replacement of [^a-zA-Z0-9_-]+ by "": the kept characters, in order. */
  function KeepTopicChars(s: string): (r: string)
    ensures AllTopicChars(r)
    ensures |r| <= |s|
    ensures forall c :: c in r ==> c in s
  {
    if |s| == 0 then ""
    else if IsTopicChar(s[0]) then [s[0]] + KeepTopicChars(s[1..])
    else KeepTopicChars(s[1..])
  }

  /** The host name as it appears in every topic. */
  function SanitizeHostname(h: string): (r: string)
    ensures AllTopicChars(r) && '.' !in r && '/' !in r
    ensures forall c :: c in r ==> c in FirstLabel(h)
  {
    KeepTopicChars(FirstLabel(h))
  }

  /** getTopicPrefix. */
  function TopicPrefix(host: string): string {
    "mac2mqtt/" + host
  }

  /** Keeping topic characters is the identity exactly on text made of them. */
  lemma {:induction false} KeepTopicCharsFixpoint(s: string)
    ensures KeepTopicChars(s) == s <==> AllTopicChars(s)
  {
    if |s| > 0 {
      KeepTopicCharsFixpoint(s[1..]);
      if !IsTopicChar(s[0]) {
        // the result is no longer than s[1..], so it cannot be s
        assert |KeepTopicChars(s)| < |s|;
      }
    }
  }

  /** Filtering text and then more text is filtering the whole, so the filter keeps order. */
  lemma {:induction false} KeepTopicCharsAppend(a: string, b: string)
    ensures KeepTopicChars(a + b) == KeepTopicChars(a) + KeepTopicChars(b)
  {
    if |a| > 0 {
      assert (a + b)[1..] == a[1..] + b;
      KeepTopicCharsAppend(a[1..], b);
    } else {
      assert a + b == b;
    }
  }

  /** Every allowed character of the input survives the filter. */
  lemma {:induction false} KeepTopicCharsKeepsAllowed(s: string, c: char)
    requires c in s && IsTopicChar(c)
    ensures c in KeepTopicChars(s)
  {
    if s[0] != c {
      KeepTopicCharsKeepsAllowed(s[1..], c);
    }
  }

  /** Text with no '.' is its own first label. */
  lemma {:induction false} FirstLabelOfDotless(h: string)
    requires '.' !in h
    ensures FirstLabel(h) == h
  {
    if |h| > 0 {
      FirstLabelOfDotless(h[1..]);
    }
  }

  /** Sanitising an already sanitised host name changes nothing. */
  lemma SanitizeIdempotent(h: string)
    ensures SanitizeHostname(SanitizeHostname(h)) == SanitizeHostname(h)
  {
    var r := SanitizeHostname(h);
    FirstLabelOfDotless(r);
    KeepTopicCharsFixpoint(r);
  }

  /** The sanitised name is exactly the filtered text before the first '.',
      whatever follows that dot. */
  lemma SanitizeIgnoresDomain(name: string, domain: string)
    requires '.' !in name
    ensures SanitizeHostname(name + "." + domain) == KeepTopicChars(name)
  {
    FirstLabelSplit(name, domain);
  }

  lemma {:induction false} FirstLabelSplit(name: string, domain: string)
    requires '.' !in name
    ensures FirstLabel(name + "." + domain) == name
  {
    if |name| > 0 {
      assert (name + "." + domain)[1..] == name[1..] + "." + domain;
      FirstLabelSplit(name[1..], domain);
    }
  }
}
