/**
 * The schema prefix of fixrupr.go's `getPrefix`: `z_`, the host name made
 * safe for an unquoted MySQL identifier and cut to 19 characters, `_`, and
 * the Unix time in seconds. The host name lookup and the clock are
 * parameters: `None` stands for a failed lookup.
 */
module Fixrupr {
  import opened Wrappers
  import opened Text

  /** The characters an unquoted identifier may keep: `[0-9a-zA-Z$_]`. */
  predicate Safe(c: char)
  {
    ('0' <= c <= '9') || ('a' <= c <= 'z') || ('A' <= c <= 'Z') || c == '$' || c == '_'
  }

  /** Every character outside `[0-9a-zA-Z$_]` replaced by `_`. */
  function Sanitized(host: string): string
    decreases |host|
  {
    if host == [] then []
    else [if Safe(host[0]) then host[0] else '_'] + Sanitized(host[1..])
  }

  const MaxHostLength := 19

  /** The first 19 characters, or all of them when there are fewer. */
  function Truncated(host: string): string
  {
    if |host| > MaxHostLength then host[..MaxHostLength] else host
  }

  /** The host name, or `localhost` when the lookup failed. */
  function HostName(lookup: Option<string>): string
  {
    if lookup.Some? then lookup.value else "localhost"
  }

  /** The host part of the prefix. */
  function HostPart(name: string): string
  {
    Truncated(Sanitized(name))
  }

  /** The prefix a run on host `name` at Unix second `now` gets. */
  function PrefixFor(name: string, now: int): string
  {
    "z_" + HostPart(name) + "_" + Decimal(now)
  }

  /** `getPrefix`, with the host name lookup and the clock's Unix seconds given. */
  function NewPrefix(lookup: Option<string>, now: int): string
  {
    PrefixFor(HostName(lookup), now)
  }

  /** Sanitizing keeps the length, keeps safe characters and turns every other one into `_`. */
  lemma {:induction false} SanitizedSpec(host: string)
    ensures var r := Sanitized(host);
            && |r| == |host|
            && forall k :: 0 <= k < |r| ==> (Safe(host[k]) ==> r[k] == host[k]) && (!Safe(host[k]) ==> r[k] == '_')
    decreases |host|
  {
    if host != [] {
      SanitizedSpec(host[1..]);
      var r := Sanitized(host);
      forall k | 1 <= k < |r| ensures (Safe(host[k]) ==> r[k] == host[k]) && (!Safe(host[k]) ==> r[k] == '_') {
        assert r[k] == Sanitized(host[1..])[k - 1] && host[k] == host[1..][k - 1];
      }
    }
  }

  /** The host part: the sanitized name cut to at most 19 characters, each of them safe. */
  lemma HostPartSpec(name: string)
    ensures var h := HostPart(name);
            && |h| == (if |name| > MaxHostLength then MaxHostLength else |name|)
            && AllSafe(h)
            && forall k :: 0 <= k < |h| ==> (Safe(name[k]) ==> h[k] == name[k]) && (!Safe(name[k]) ==> h[k] == '_')
  {
    SanitizedSpec(name);
  }

  /** A name made of safe characters only is kept as it is. */
  lemma SanitizedSafe(host: string)
    requires AllSafe(host)
    ensures Sanitized(host) == host
  {
    SanitizedSpec(host);
  }

  /** A failed host name lookup gives the prefix the host `localhost` gets. */
  lemma FallbackHost(now: int)
    ensures NewPrefix(None, now) == NewPrefix(Some("localhost"), now)
  {
  }

  /** Sanitizing twice changes nothing more. */
  lemma SanitizedIdempotent(host: string)
    ensures Sanitized(Sanitized(host)) == Sanitized(host)
  {
    SanitizedSpec(host);
    SanitizedSafe(Sanitized(host));
  }

  /** The prefix starts with `z_` and is safe as an unquoted identifier once the clock is past 1970. */
  lemma NewPrefixSafe(lookup: Option<string>, now: int)
    ensures StartsWith(NewPrefix(lookup, now), "z_")
    ensures now >= 0 ==> AllSafe(NewPrefix(lookup, now))
  {
    PrefixForSafe(HostName(lookup), now);
  }

  lemma PrefixForSafe(name: string, now: int)
    ensures StartsWith(PrefixFor(name, now), "z_")
    ensures now >= 0 ==> AllSafe(PrefixFor(name, now))
  {
    var h := HostPart(name);
    var p := PrefixFor(name, now);
    assert p[..2] == "z_";
    if now >= 0 {
      var d := Decimal(now);
      assert AllSafe(h) by { HostPartSpec(name); }
      assert AllSafe(d);
      assert AllSafe("_" + d) by { AllSafeConcat("_", d); }
      assert AllSafe(h + ("_" + d)) by { AllSafeConcat(h, "_" + d); }
      assert AllSafe("z_" + (h + ("_" + d))) by { AllSafeConcat("z_", h + ("_" + d)); }
      assert p == "z_" + (h + ("_" + d));
    }
  }

  /** Every character is safe. */
  predicate AllSafe(s: string)
  {
    forall k :: 0 <= k < |s| ==> Safe(s[k])
  }

  /** A concatenation of safe strings is safe. */
  lemma AllSafeConcat(a: string, b: string)
    requires AllSafe(a) && AllSafe(b)
    ensures AllSafe(a + b)
  {
    forall k | 0 <= k < |a + b| ensures Safe((a + b)[k]) {
      if k >= |a| {
        assert (a + b)[k] == b[k - |a|];
      }
    }
  }

  /** The Unix time can be read back from the end of the prefix. */
  lemma NewPrefixTime(lookup: Option<string>, now: int)
    ensures var p := NewPrefix(lookup, now); var n := 3 + |HostPart(HostName(lookup))|;
            n <= |p| && DecimalValue(p[n..]) == now
  {
    PrefixForTime(HostName(lookup), now);
  }

  lemma PrefixForTime(name: string, now: int)
    ensures var p := PrefixFor(name, now); var n := 3 + |HostPart(name)|;
            n <= |p| && DecimalValue(p[n..]) == now
  {
    var p := PrefixFor(name, now);
    assert p[3 + |HostPart(name)|..] == Decimal(now);
    DecimalRoundTrip(now);
  }

  /** Set-ups at different seconds on the same host get different prefixes. */
  lemma PrefixPerSecond(lookup: Option<string>, now1: int, now2: int)
    requires now1 != now2
    ensures NewPrefix(lookup, now1) != NewPrefix(lookup, now2)
  {
    NewPrefixTime(lookup, now1);
    NewPrefixTime(lookup, now2);
  }
}
