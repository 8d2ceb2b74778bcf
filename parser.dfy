/**
 * The candidate parser of `fetchAndCheckIps` (index.js:91-94): the raw text of one
 * source is split into lines, each line is cut at its first `#` and trimmed, and
 * only lines made of four dot-separated runs of one to three digits, optionally
 * followed by `:` and one or more digits, are kept.
 */
module Parser {
  import opened Wrappers
  import opened Text

  /** `\d` of a JavaScript regular expression without the `u` flag: an ASCII digit. */
  predicate IsDigit(ch: char)
  {
    '0' <= ch <= '9'
  }

  predicate AllDigits(s: string)
  {
    forall k :: 0 <= k < |s| ==> IsDigit(s[k])
  }

  /** `\d{1,3}`: one to three digits; no range check, so `999` is an octet too. */
  predicate IsOctetText(o: string)
  {
    1 <= |o| <= 3 && AllDigits(o)
  }

  /** A candidate split into its four dotted parts and its optional port. */
  datatype Endpoint = Endpoint(octets: seq<string>, port: Option<string>)

  /** The endpoints the pattern describes: four octets and, if present, a port of one or more digits. */
  predicate WellFormed(e: Endpoint)
  {
    && |e.octets| == 4
    && (forall k :: 0 <= k < 4 ==> IsOctetText(e.octets[k]))
    && (e.port.Some? ==> |e.port.value| >= 1 && AllDigits(e.port.value))
  }

  /** The text of an endpoint: the octets joined by `.`, then `:` and the port when there is one. */
  function Render(e: Endpoint): string
  {
    Join(e.octets, '.') + match e.port { case None => "" case Some(p) => ":" + p }
  }

  /** The length of the run of digits at the front of `s`. */
  function DigitRun(s: string): (n: nat)
    ensures n <= |s| && AllDigits(s[..n])
    ensures n == |s| || !IsDigit(s[n])
  {
    if s != [] && IsDigit(s[0]) then
      var m := DigitRun(s[1..]);
      assert s[..m + 1] == [s[0]] + s[1..][..m];
      m + 1
    else 0
  }

  /**
   * Matches `\d{1,3}(\.\d{1,3})*` at the front of `s`, taking every digit run
   * whole, and returns the octets with the unmatched rest. Taking runs whole loses
   * nothing: in the pattern each octet is followed by `.`, `:` or the end, none of
   * which is a digit.
   */
  function ParseDotted(s: string): Option<(seq<string>, string)>
    decreases |s|
  {
    var n := DigitRun(s);
    if !(1 <= n <= 3) then None
    else if n < |s| && s[n] == '.' then
      match ParseDotted(s[n + 1..])
      case None => None
      case Some((os, rest)) => Some(([s[..n]] + os, rest))
    else Some(([s[..n]], s[n..]))
  }

  /**
   * What the dotted matcher returns: one or more octets which, joined by dots,
   * are the front of `s`, and a rest that starts with neither a digit nor a dot.
   */
  lemma {:induction false} ParseDottedSound(s: string)
    requires ParseDotted(s).Some?
    ensures var (os, rest) := ParseDotted(s).value;
      && |os| >= 1
      && (forall k :: 0 <= k < |os| ==> IsOctetText(os[k]))
      && s == Join(os, '.') + rest
      && (rest == [] || (!IsDigit(rest[0]) && rest[0] != '.'))
    decreases |s|
  {
    var n := DigitRun(s);
    var o := s[..n];
    assert IsOctetText(o);
    if n < |s| && s[n] == '.' {
      var tail := s[n + 1..];
      ParseDottedSound(tail);
      var (os, rest) := ParseDotted(tail).value;
      assert ParseDotted(s).value == ([o] + os, rest);
      CutAtDot(s, n);
      JoinDot(o, tail, os, rest);
      OctetsCons(o, os);
    } else {
      assert ParseDotted(s).value == ([o], s[n..]);
      CutAt(s, n);
    }
  }

  lemma CutAtDot(s: string, n: nat)
    requires n < |s| && s[n] == '.'
    ensures s == s[..n] + ['.'] + s[n + 1..]
  {
  }

  lemma CutAt(s: string, n: nat)
    requires n <= |s|
    ensures s == s[..n] + s[n..]
  {
  }

  lemma HeadTail<T>(xs: seq<T>)
    requires |xs| >= 1
    ensures [xs[0]] + xs[1..] == xs
  {
  }

  lemma JoinDot(o: string, tail: string, os: seq<string>, rest: string)
    requires |os| >= 1 && tail == Join(os, '.') + rest
    ensures o + ['.'] + tail == Join([o] + os, '.') + rest
  {
    JoinCons(o, os, '.');
  }

  lemma OctetsCons(o: string, os: seq<string>)
    requires IsOctetText(o)
    requires forall k :: 0 <= k < |os| ==> IsOctetText(os[k])
    ensures forall k :: 0 <= k < |[o] + os| ==> IsOctetText(([o] + os)[k])
  {
  }

  /** Matches the optional port and the end of the line against what follows the octets. */
  function ParsePort(rest: string): Option<Option<string>>
  {
    if rest == [] then Some(None)
    else if rest[0] == ':' && |rest| >= 2 && AllDigits(rest[1..]) then Some(Some(rest[1..]))
    else None
  }

  /**
   * The port matcher accepts the empty rest with no port, and `:` followed by one
   * or more digits with those digits as the port; everything else it refuses.
   */
  lemma ParsePortSpec(rest: string)
    ensures ParsePort(rest) == Some(None) <==> rest == []
    ensures ParsePort(rest).Some? && ParsePort(rest).value.Some? ==>
      rest == ":" + ParsePort(rest).value.value && |ParsePort(rest).value.value| >= 1 && AllDigits(ParsePort(rest).value.value)
    ensures |rest| >= 2 && rest[0] == ':' && AllDigits(rest[1..]) ==> ParsePort(rest) == Some(Some(rest[1..]))
  {
    if rest != [] {
      assert rest == ":" + rest[1..] || rest[0] != ':';
    }
  }

  /** Matches the whole endpoint pattern against `s`. */
  function ParseEndpoint(s: string): Option<Endpoint>
  {
    match ParseDotted(s)
    case None => None
    case Some((os, rest)) =>
      if |os| != 4 then None
      else match ParsePort(rest)
        case None => None
        case Some(port) => Some(Endpoint(os, port))
  }

  /** The pattern test of index.js:94: the whole line is four dotted octets with an optional port. */
  predicate IsEndpoint(s: string)
  {
    ParseEndpoint(s).Some?
  }

  /** Whatever the matcher accepts is a well-formed endpoint written out exactly. */
  lemma ParseSound(s: string)
    requires IsEndpoint(s)
    ensures WellFormed(ParseEndpoint(s).value)
    ensures Render(ParseEndpoint(s).value) == s
  {
    ParseDottedSound(s);
    var r := ParseDotted(s).value;
    var e := ParseEndpoint(s).value;
    assert e.octets == r.0;
    match e.port
    case None =>
    case Some(p) =>
      ParsePortSpec(r.1);
      assert ParsePort(r.1) == Some(Some(p));
  }

  /** Digits followed by a non-digit (or nothing) scan as one run. */
  lemma {:induction false} DigitRunOf(o: string, rest: string)
    requires AllDigits(o)
    requires rest == [] || !IsDigit(rest[0])
    ensures DigitRun(o + rest) == |o|
    decreases |o|
  {
    if o != [] {
      assert (o + rest)[1..] == o[1..] + rest;
      DigitRunOf(o[1..], rest);
    }
  }

  /** The last octet: its run of digits ends where `rest` begins. */
  lemma ParseDottedLast(o: string, rest: string)
    requires IsOctetText(o)
    requires rest == [] || (!IsDigit(rest[0]) && rest[0] != '.')
    ensures ParseDotted(o + rest) == Some(([o], rest))
  {
    var s := o + rest;
    var n := |o|;
    DigitRunOf(o, rest);
    assert s[..n] == o && s[n..] == rest;
  }

  /** An octet followed by `.`: the matcher goes on with what follows the dot. */
  lemma ParseDottedNext(o: string, tail: string)
    requires IsOctetText(o)
    requires ParseDotted(tail).Some?
    ensures ParseDotted(o + ['.'] + tail) == Some(([o] + ParseDotted(tail).value.0, ParseDotted(tail).value.1))
  {
    var s := o + ['.'] + tail;
    var n := |o|;
    DigitRunOf(o, ['.'] + tail);
    assert s == o + (['.'] + tail);
    assert s[..n] == o && s[n] == '.' && s[n + 1..] == tail;
  }

  /** The dotted matcher accepts every joined list of octets, split back exactly as written. */
  lemma {:induction false} ParseDottedComplete(os: seq<string>, rest: string)
    requires |os| >= 1
    requires forall k :: 0 <= k < |os| ==> IsOctetText(os[k])
    requires rest == [] || (!IsDigit(rest[0]) && rest[0] != '.')
    ensures ParseDotted(Join(os, '.') + rest) == Some((os, rest))
    decreases |os|
  {
    if |os| == 1 {
      assert Join(os, '.') == os[0];
      ParseDottedLast(os[0], rest);
      assert [os[0]] == os;
    } else {
      var tail := Join(os[1..], '.') + rest;
      ParseDottedComplete(os[1..], rest);
      ParseDottedNext(os[0], tail);
      HeadTail(os);
      JoinDot(os[0], tail, os[1..], rest);
    }
  }

  /** Every well-formed endpoint, written out, is accepted and read back as itself. */
  lemma ParseComplete(e: Endpoint)
    requires WellFormed(e)
    ensures ParseEndpoint(Render(e)) == Some(e)
  {
    var suffix := match e.port { case None => "" case Some(p) => ":" + p };
    assert Render(e) == Join(e.octets, '.') + suffix;
    ParseDottedComplete(e.octets, suffix);
    ParsePortSpec(suffix);
    assert ParsePort(suffix) == Some(e.port);
  }

  /** The language of the matcher is exactly the written-out well-formed endpoints. */
  lemma IsEndpointIff(s: string)
    ensures IsEndpoint(s) <==> exists e :: WellFormed(e) && Render(e) == s
  {
    if IsEndpoint(s) {
      ParseSound(s);
    }
    forall e | WellFormed(e) && Render(e) == s ensures IsEndpoint(s) {
      ParseComplete(e);
    }
  }

  /** The characters of dotted octets: digits and dots, with a digit at each end. */
  lemma {:induction false} JoinedOctetChars(os: seq<string>)
    requires |os| >= 1
    requires forall k :: 0 <= k < |os| ==> IsOctetText(os[k])
    ensures |Join(os, '.')| >= 1
    ensures IsDigit(Join(os, '.')[0]) && IsDigit(Join(os, '.')[|Join(os, '.')| - 1])
    ensures forall k :: 0 <= k < |Join(os, '.')| ==> IsDigit(Join(os, '.')[k]) || Join(os, '.')[k] == '.'
    decreases |os|
  {
    if |os| > 1 {
      JoinedOctetChars(os[1..]);
      var j := Join(os, '.');
      var t := Join(os[1..], '.');
      assert j == os[0] + ['.'] + t;
      forall k | 0 <= k < |j| ensures IsDigit(j[k]) || j[k] == '.' {
        if k > |os[0]| {
          assert j[k] == t[k - |os[0]| - 1];
        }
      }
    }
  }

  /** A string of digits, dots and colons that starts and ends with a digit has no `#` and no outer whitespace. */
  lemma DigitBoundedChars(s: string)
    requires |s| >= 1 && IsDigit(s[0]) && IsDigit(s[|s| - 1])
    requires forall k :: 0 <= k < |s| ==> IsDigit(s[k]) || s[k] == '.' || s[k] == ':'
    ensures '#' !in s && !IsSpace(s[0]) && !IsSpace(s[|s| - 1])
  {
  }

  /** Dotted octets followed by `:` and a port keep to digits, dots and colons. */
  lemma PortedChars(j: string, p: string)
    requires |j| >= 1 && IsDigit(j[0])
    requires forall k :: 0 <= k < |j| ==> IsDigit(j[k]) || j[k] == '.'
    requires |p| >= 1 && AllDigits(p)
    ensures var s := j + ":" + p;
      IsDigit(s[0]) && IsDigit(s[|s| - 1]) &&
      forall k :: 0 <= k < |s| ==> IsDigit(s[k]) || s[k] == '.' || s[k] == ':'
  {
    var s := j + ":" + p;
    forall k | 0 <= k < |s| ensures IsDigit(s[k]) || s[k] == '.' || s[k] == ':' {
      if k > |j| {
        assert s[k] == p[k - |j| - 1];
      }
    }
    assert s[|s| - 1] == p[|p| - 1];
  }

  /**
   * An accepted candidate holds only digits, `.` and `:`, and starts and ends with
   * a digit: it has no `#` and no surrounding whitespace.
   */
  lemma EndpointChars(s: string)
    requires IsEndpoint(s)
    ensures |s| >= 1 && IsDigit(s[0]) && IsDigit(s[|s| - 1])
    ensures forall k :: 0 <= k < |s| ==> IsDigit(s[k]) || s[k] == '.' || s[k] == ':'
    ensures '#' !in s && !IsSpace(s[0]) && !IsSpace(s[|s| - 1])
  {
    ParseSound(s);
    var e := ParseEndpoint(s).value;
    var j := Join(e.octets, '.');
    JoinedOctetChars(e.octets);
    if e.port.Some? {
      assert s == j + ":" + e.port.value;
      PortedChars(j, e.port.value);
    } else {
      assert s == j;
    }
    DigitBoundedChars(s);
  }

  /** Four octets joined by dots. */
  lemma JoinFour(a: string, b: string, c: string, d: string)
    ensures Join([a, b, c, d], '.') == a + "." + b + "." + c + "." + d
  {
    assert [a, b, c, d][1..] == [b, c, d] && [b, c, d][1..] == [c, d] && [c, d][1..] == [d];
    assert Join([d], '.') == d;
    assert Join([c, d], '.') == c + "." + d;
    assert Join([b, c, d], '.') == b + "." + c + "." + d;
  }

  /** The pattern checks no octet range: `999` is an octet. */
  lemma NoOctetRange()
    ensures IsEndpoint("999.999.999.999")
  {
    var e := Endpoint(["999", "999", "999", "999"], None);
    JoinFour("999", "999", "999", "999");
    assert Render(e) == "999.999.999.999";
    ParseComplete(e);
  }

  /** The pattern checks no port range: `99999` is a port. */
  lemma NoPortRange()
    ensures IsEndpoint("1.2.3.4:99999")
  {
    var e := Endpoint(["1", "2", "3", "4"], Some("99999"));
    JoinFour("1", "2", "3", "4");
    assert Render(e) == "1.2.3.4:99999";
    ParseComplete(e);
  }

  /** One line of a source cleaned as at index.js:93: the part before its first `#`, trimmed. */
  function CleanLine(line: string): string
  {
    Trim(Split(line, '#')[0])
  }

  /**
   * A cleaned line is the prefix before the first `#`, trimmed: it contains no
   * `#` and does not start or end with whitespace.
   */
  lemma CleanLineSpec(line: string)
    ensures CleanLine(line) == Trim(line[..IndexOf(line, '#')])
    ensures '#' !in CleanLine(line)
    ensures CleanLine(line) == [] || (!IsSpace(CleanLine(line)[0]) && !IsSpace(CleanLine(line)[|CleanLine(line)| - 1]))
  {
    FirstPieceIsPrefix(line, '#');
    var p := Split(line, '#')[0];
    var i := TrimSlice(p);
    assert CleanLine(line) == p[i..i + |CleanLine(line)|];
  }

  /** A line that is empty, only whitespace before its comment, or starts with `#` cleans to `""`. */
  lemma CleanLineBlank(line: string)
    requires forall k :: 0 <= k < IndexOf(line, '#') ==> IsSpace(line[k])
    ensures CleanLine(line) == []
  {
    FirstPieceIsPrefix(line, '#');
    TrimAllSpace(line[..IndexOf(line, '#')]);
  }

  /** The empty string is not a candidate, so blank and comment lines are dropped. */
  lemma EmptyIsNotEndpoint()
    ensures !IsEndpoint("")
  {
    assert DigitRun("") == 0;
  }

  /** Every line cleaned, then only the lines that pass the pattern test, in order (index.js:93-94). */
  function ParseLines(lines: seq<string>): (r: seq<string>)
    ensures |r| <= |lines|
  {
    if lines == [] then []
    else
      var x := CleanLine(lines[0]);
      (if IsEndpoint(x) then [x] else []) + ParseLines(lines[1..])
  }

  /** The candidates of one source text. */
  function ParseText(text: string): seq<string>
  {
    ParseLines(Split(text, '\n'))
  }

  /** Every kept candidate matches the pattern. */
  lemma {:induction false} ParseLinesMatch(lines: seq<string>)
    ensures forall k :: 0 <= k < |ParseLines(lines)| ==> IsEndpoint(ParseLines(lines)[k])
    decreases |lines|
  {
    if lines != [] {
      ParseLinesMatch(lines[1..]);
    }
  }

  /** A candidate is kept exactly when it is some line, cleaned, that matches the pattern. */
  lemma {:induction false} ParseLinesMember(lines: seq<string>, x: string)
    ensures x in ParseLines(lines) <==> IsEndpoint(x) && exists k :: 0 <= k < |lines| && CleanLine(lines[k]) == x
    decreases |lines|
  {
    if lines != [] {
      ParseLinesMember(lines[1..], x);
      if exists k :: 0 <= k < |lines| && CleanLine(lines[k]) == x {
        var k :| 0 <= k < |lines| && CleanLine(lines[k]) == x;
        if k > 0 {
          assert CleanLine(lines[1..][k - 1]) == x;
        }
      }
      forall k | 0 <= k < |lines| - 1 && CleanLine(lines[1..][k]) == x
        ensures exists k' :: 0 <= k' < |lines| && CleanLine(lines[k']) == x
      {
        assert CleanLine(lines[k + 1]) == x;
      }
    }
  }

  /** Parsing keeps line order: the candidates of two blocks of lines are those of each, in turn. */
  lemma {:induction false} ParseLinesAppend(a: seq<string>, b: seq<string>)
    ensures ParseLines(a + b) == ParseLines(a) + ParseLines(b)
    decreases |a|
  {
    if a != [] {
      assert (a + b)[0] == a[0] && (a + b)[1..] == a[1..] + b;
      ParseLinesAppend(a[1..], b);
      var x := CleanLine(a[0]);
      var head := if IsEndpoint(x) then [x] else [];
      assert ParseLines(a + b) == head + ParseLines(a[1..] + b);
      assert ParseLines(a) == head + ParseLines(a[1..]);
    } else {
      assert a + b == b;
    }
  }

  /** Nothing kept from a source text contains `#`, a line break, or surrounding whitespace. */
  lemma ParsedAreClean(text: string, x: string)
    requires x in ParseText(text)
    ensures IsEndpoint(x) && '#' !in x && '\n' !in x && Trim(x) == x
  {
    ParseLinesMember(Split(text, '\n'), x);
    EndpointChars(x);
    TrimUnchanged(x);
  }
}
