/**
 * The module-level progress counters (`total`, `processed`, `validCount`) with
 * `initProgress` and `updateProgress`, and the visible effect of `checkProxy`: the
 * host it extracts, the value it resolves to and the counter updates it makes. The
 * browser check itself is an oracle whose answer is passed in as a `ProbeResult`.
 */
module Progress {
  import opened Wrappers
  import opened Text
  import opened Parser

  /** `config.DEFAULT_PORT`, as it appears in the `--proxy-server` argument. */
  const DEFAULT_PORT: string := "443"

  /**
   * What the browser check reports for one candidate: the page loaded without the
   * `"Just a moment..."` challenge, the page showed the challenge, or launching or
   * navigating threw (a timeout included).
   */
  datatype ProbeResult = Passed | Challenged | Errored

  /** The host part of a candidate (index.js:34): everything before the first `:`. */
  function Host(ipPort: string): (h: string)
    ensures ':' !in h
    ensures |h| <= |ipPort| && h == ipPort[..|h|]
    ensures |h| == |ipPort| || ipPort[|h|] == ':'
  {
    FirstPiece(ipPort, ':');
    Split(ipPort, ':')[0]
  }

  /** The port part of a candidate (index.js:34): the second `:`-piece, or the default port when there is none. */
  function PortText(ipPort: string): string
  {
    var pieces := Split(ipPort, ':');
    if |pieces| >= 2 then pieces[1] else DEFAULT_PORT
  }

  /** The proxy address handed to the browser (index.js:41): host, `:`, port. */
  function ProxyServer(ipPort: string): string
  {
    Host(ipPort) + ":" + PortText(ipPort)
  }

  /**
   * For a parsed candidate the host is its dotted part, and the proxy address is
   * the candidate itself when it names a port and the candidate with `:443` otherwise.
   */
  lemma ProxyServerOfEndpoint(s: string)
    requires IsEndpoint(s)
    ensures Host(s) == Join(ParseEndpoint(s).value.octets, '.')
    ensures ProxyServer(s) == if ':' in s then s else s + ":" + DEFAULT_PORT
  {
    ParseSound(s);
    var e := ParseEndpoint(s).value;
    var j := Join(e.octets, '.');
    JoinedOctetChars(e.octets);
    assert ':' !in j by {
      forall k | 0 <= k < |j| ensures j[k] != ':' { }
    }
    match e.port
    case None =>
      assert s == j;
      SplitWithoutSeparator(s, ':');
    case Some(p) =>
      assert s == j + [':'] + p;
      assert ':' !in p by {
        forall k | 0 <= k < |p| ensures p[k] != ':' {
          assert IsDigit(p[k]);
        }
      }
      SplitAfterPiece(j, ':', p);
      SplitWithoutSeparator(p, ':');
      assert Split(s, ':') == [j, p];
      assert ':' in s by {
        assert s[|j|] == ':';
      }
  }

  /** What `checkProxy(ipPort)` resolves to: the bare host when the check passed, `null` otherwise. */
  function ProbeValue(ipPort: string, result: ProbeResult): (r: Option<string>)
    ensures r.Some? <==> result == Passed
    ensures r.Some? ==> ':' !in r.value && |r.value| <= |ipPort| && r.value == ipPort[..|r.value|]
  {
    if result == Passed then Some(Host(ipPort)) else None
  }

  /** The three module-level counters. */
  class Tracker {
    var total: int
    var processed: int
    var validCount: int

    /** The counters as the module declares them (index.js:9-11): all zero. */
    constructor ()
      ensures total == 0 && processed == 0 && validCount == 0
    {
      total, processed, validCount := 0, 0, 0;
    }

    /** `initProgress` (index.js:13-17): a new total, and the other two counters reset. */
    method InitProgress(t: int)
      modifies this
      ensures total == t && processed == 0 && validCount == 0
    {
      total := t;
      processed := 0;
      validCount := 0;
    }

    /** `updateProgress` (index.js:19-22): one more processed, and one more valid exactly when `valid`. */
    method UpdateProgress(valid: bool)
      modifies this
      ensures processed == old(processed) + 1
      ensures validCount == old(validCount) + (if valid then 1 else 0)
      ensures total == old(total)
    {
      processed := processed + 1;
      if valid {
        validCount := validCount + 1;
      }
    }

    /**
     * `checkProxy(ipPort)` once the browser check has answered `result`. A pass
     * records progress twice, once as valid before returning the host and once more
     * in the `finally` block, so `processed` rises by 2; any other outcome reaches
     * only the `finally` block and returns `null`.
     */
    method CheckProxy(ipPort: string, result: ProbeResult) returns (r: Option<string>)
      modifies this
      ensures r == ProbeValue(ipPort, result)
      ensures processed == old(processed) + (if result == Passed then 2 else 1)
      ensures validCount == old(validCount) + (if result == Passed then 1 else 0)
      ensures total == old(total)
    {
      var ip := Split(ipPort, ':')[0];
      r := None;
      if result == Passed {
        UpdateProgress(true);
        r := Some(ip);
      }
      UpdateProgress(false);
    }
  }
}
