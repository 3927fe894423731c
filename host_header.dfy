/**
 Destination discovery of the relay worker: the first block read from the
 client is decoded, split into lines on '\n', and the first line that starts
 with the exact text "Host: " gives the destination. Its value is trimmed; a
 value without ':' is the host and the port stays 80; otherwise the host is the
 text before the first ':' and the port is Integer.valueOf of the text between
 the first and the second ':'. The two ways that step throws (no second piece
 at all, or a piece that is not an int) are explicit results here.
 */
module HostHeader {
  import opened JavaLang

  const HostPrefix: string := "Host: "
  const DefaultPort: int := 80

  datatype Destination = Destination(host: string, port: int)

  datatype Lookup =
    | Found(dest: Destination)
    | NoHostLine
      // `line.split(":")[1]` on a value whose pieces after the first ':' are all empty:
      // ArrayIndexOutOfBoundsException
    | PortMissing
      // `Integer.valueOf(line.split(":")[1])` on a piece that is not an int: NumberFormatException
    | PortNotNumber(text: string)

  predicate IsHostLine(line: string) {
    StartsWith(line, HostPrefix)
  }

  /** `line.substring(6).trim()` */
  function HostValue(line: string): string
    requires IsHostLine(line)
  {
    Trim(line[|HostPrefix|..])
  }

  /** `new String(buffer).split("\n")` */
  function Lines(text: string): (lines: seq<string>)
    ensures forall k :: 0 <= k < |lines| ==> '\n' !in lines[k]
  {
    JavaSplit(text, '\n')
  }

  /** What lines 72-77 make of the trimmed value of a Host line. */
  function ParseHostValue(v: string): (r: Lookup)
    ensures r != NoHostLine
    ensures r.Found? ==> ':' !in r.dest.host
    ensures ':' !in v ==> r == Found(Destination(v, DefaultPort))
  {
    if ':' !in v then Found(Destination(v, DefaultPort))
    else
      var parts := JavaSplit(v, ':');
      if |parts| < 2 then PortMissing
      else PortLookup(parts[0], parts[1])
  }

  /** `Integer.valueOf(port)` paired with `host`; a NumberFormatException when the port is not an int. */
  function PortLookup(host: string, port: string): Lookup {
    match ParseInt(port)
    case None => PortNotNumber(port)
    case Some(p) => Found(Destination(host, p))
  }

  /** Index of the first line that starts with "Host: ", the one where the scan breaks. */
  function FirstHostLine(lines: seq<string>): (r: Option<nat>)
    ensures r.Some? ==> r.value < |lines| && IsHostLine(lines[r.value])
    ensures r.Some? ==> forall j :: 0 <= j < r.value ==> !IsHostLine(lines[j])
    ensures r.None? <==> forall j :: 0 <= j < |lines| ==> !IsHostLine(lines[j])
  {
    if |lines| == 0 then None
    else if IsHostLine(lines[0]) then Some(0)
    else
      match FirstHostLine(lines[1..])
      case None => None
      case Some(k) => Some(k + 1)
  }

  /** The destination the worker derives from the sniffed text (lines 66-80). */
  function ParseHeader(text: string): Lookup {
    var lines := Lines(text);
    match FirstHostLine(lines)
    case None => NoHostLine
    case Some(k) => ParseHostValue(HostValue(lines[k]))
  }

  /** The scan loop of lines 66-80, which stops at the first Host line. */
  method ScanHeaders(text: string) returns (r: Lookup)
    ensures r == ParseHeader(text)
  {
    var headers := JavaSplit(text, '\n');
    r := NoHostLine;
    for i := 0 to |headers|
      invariant r == NoHostLine
      invariant forall j :: 0 <= j < i ==> !IsHostLine(headers[j])
    {
      var line := headers[i];
      if StartsWith(line, HostPrefix) {
        line := Trim(line[6..]);
        r := ParseHostValue(line);
        FirstHostLineWins(text, i);
        return;
      }
    }
    NoHostLineIff(text);
  }

  /** A Host line preceded only by non-Host lines is the first one. */
  lemma {:induction false} FirstHostLineIs(lines: seq<string>, i: nat)
    requires i < |lines| && IsHostLine(lines[i])
    requires forall j :: 0 <= j < i ==> !IsHostLine(lines[j])
    ensures FirstHostLine(lines) == Some(i)
  {
    if i > 0 {
      assert !IsHostLine(lines[0]);
      assert forall j :: 0 <= j < i - 1 ==> lines[1..][j] == lines[j + 1];
      FirstHostLineIs(lines[1..], i - 1);
    }
  }

  // ---------------------------------------------------------------- properties

  /** No Host line at all is exactly the case in which no destination (nor error) results. */
  lemma NoHostLineIff(text: string)
    ensures ParseHeader(text) == NoHostLine <==> forall k :: 0 <= k < |Lines(text)| ==> !IsHostLine(Lines(text)[k])
  {
  }

  /** Any Host line preceded only by non-Host lines decides the result; later Host lines are ignored. */
  lemma FirstHostLineWins(text: string, k: nat)
    requires k < |Lines(text)| && IsHostLine(Lines(text)[k])
    requires forall j :: 0 <= j < k ==> !IsHostLine(Lines(text)[j])
    ensures ParseHeader(text) == ParseHostValue(HostValue(Lines(text)[k]))
  {
    FirstHostLineIs(Lines(text), k);
  }

  /** The prefix is case-sensitive and needs the space: "host: a" and "Host:a" are not Host lines. */
  lemma PrefixIsExact()
    ensures !IsHostLine("host: a") && !IsHostLine("Host:a") && !IsHostLine("HOST: a")
  {
    assert "host: a"[..6][0] != HostPrefix[0];
    assert "Host:a"[..6][5] != HostPrefix[5];
    assert "HOST: a"[..6][1] != HostPrefix[1];
  }

  /**
   A value with ':' gives the text before the first ':' as host and reads the
   port from the piece between the first and the second ':' (the rest of the
   value when there is no second ':'). The lookup throws when everything after
   the first ':' is ':' (String.split has no second piece to return), and when
   the port piece is not an int.
   */
  lemma ColonValue(v: string)
    requires ':' in v
    ensures var i := IndexOf(v, ':');
            var rest := v[i + 1..];
            ParseHostValue(v) ==
              if forall k :: 0 <= k < |rest| ==> rest[k] == ':' then PortMissing
              else PortLookup(v[..i], FirstPiece(rest, ':'))
  {
    var i := IndexOf(v, ':');
    var rest := v[i + 1..];
    if forall k :: 0 <= k < |rest| ==> rest[k] == ':' {
      ColonValueMissing(v, rest);
    } else {
      var k :| 0 <= k < |rest| && rest[k] != ':';
      assert v[i + 1 + k] == rest[k];
      ColonValuePort(v, i + 1 + k, v[..i], FirstPiece(rest, ':'));
    }
  }

  /** The branch of ColonValue with nothing but ':' in `rest`, the text after the first ':'. */
  lemma ColonValueMissing(v: string, rest: string)
    requires ':' in v && rest == v[IndexOf(v, ':') + 1..]
    requires forall k :: 0 <= k < |rest| ==> rest[k] == ':'
    ensures ParseHostValue(v) == PortMissing
  {
    var i := IndexOf(v, ':');
    assert forall k :: i < k < |v| ==> v[k] == rest[k - i - 1];
    JavaSplitNoSecond(v, ':');
  }

  /** The branch of ColonValue with a character other than ':' at `k`, after the first ':'. */
  lemma ColonValuePort(v: string, k: nat, host: string, port: string)
    requires ':' in v && IndexOf(v, ':') < k < |v| && v[k] != ':'
    requires host == v[..IndexOf(v, ':')] && port == FirstPiece(v[IndexOf(v, ':') + 1..], ':')
    ensures ParseHostValue(v) == PortLookup(host, port)
  {
    JavaSplitSecond(v, ':', k);
    var parts := JavaSplit(v, ':');
    assert parts[0] == host && parts[1] == port;
  }

  /** A host that is found contains neither '\n' nor ':' and does not start with a blank. */
  lemma FoundHostIsClean(text: string)
    requires ParseHeader(text).Found?
    ensures var host := ParseHeader(text).dest.host;
            '\n' !in host && ':' !in host && (host == [] || !IsBlank(host[0]))
  {
    var lines := Lines(text);
    var line := lines[FirstHostLine(lines).value];
    var pre, post := TrimSplit(line[6..]);
    CleanValue(line, pre, HostValue(line), post);
    ParsedHostIsClean(HostValue(line));
  }

  lemma CleanValue(line: string, pre: string, v: string, post: string)
    requires '\n' !in line && |line| >= 6 && line[6..] == pre + v + post
    ensures '\n' !in v
  {
    assert forall c :: c in v ==> c in pre + v + post;
    assert forall c :: c in line[6..] ==> c in line;
  }

  /** The host parsed from a value without '\n' that does not start with a blank is as clean. */
  lemma ParsedHostIsClean(v: string)
    requires '\n' !in v && (v == [] || !IsBlank(v[0])) && ParseHostValue(v).Found?
    ensures var host := ParseHostValue(v).dest.host;
            '\n' !in host && ':' !in host && (host == [] || !IsBlank(host[0]))
  {
    if ':' in v {
      ColonValue(v);
      var i := IndexOf(v, ':');
      assert ParseHostValue(v).dest.host == v[..i];
      assert forall c :: c in v[..i] ==> c in v;
      if i > 0 {
        assert v[..i][0] == v[0];
      }
    }
  }

  /** A CR before the '\n' of a CRLF line never reaches the host or the port. */
  lemma CarriageReturnIgnored(v: string)
    ensures HostValue(HostPrefix + v + "\r") == HostValue(HostPrefix + v)
  {
    assert (HostPrefix + v + "\r")[|HostPrefix|..] == v + "\r";
    assert (HostPrefix + v)[|HostPrefix|..] == v;
    var pre, post := TrimSplit(v);
    assert v + "\r" == pre + Trim(v) + (post + "\r");
    TrimUnique(pre, Trim(v), post + "\r");
  }

  // ---------------------------------------------------------------- values and requests

  /** A value `host:port` with a non-empty port piece and no further ':'. */
  lemma HostAndPort(host: string, portText: string)
    requires ':' !in host && ':' !in portText && portText != []
    ensures ParseHostValue(host + ":" + portText) == PortLookup(host, portText)
  {
    var parts := [host, portText];
    assert Join(parts[1..], ':') == portText;
    assert Join(parts, ':') == host + ":" + portText;
    JavaSplitJoin(parts, ':');
  }

  /** `host:port` with the port written in decimal reads back as that host and port, negative ports included. */
  lemma HostWithPort(host: string, port: int)
    requires ':' !in host && IntMin <= port <= IntMax
    ensures ParseHostValue(host + ":" + Show(port)) == Found(Destination(host, port))
  {
    var digits := Show(port);
    ShowChars(port);
    assert ':' !in digits by {
      forall k | 0 <= k < |digits| ensures digits[k] != ':' {
        assert IsDigit(digits[k]) || digits[k] == '-';
      }
    }
    HostAndPort(host, digits);
    ParseShow(port);
  }

  /** A port beyond the int range, written in decimal, makes Integer.valueOf throw. */
  lemma PortOutOfRange(host: string, m: nat)
    requires ':' !in host && m > IntMax
    ensures ParseHostValue(host + ":" + ShowNat(m)) == PortNotNumber(ShowNat(m))
  {
    var digits := ShowNat(m);
    assert ':' !in digits by {
      forall k | 0 <= k < |digits| ensures digits[k] != ':' {
        assert IsDigit(digits[k]);
      }
    }
    HostAndPort(host, digits);
    ParseOutOfRange(m);
  }

  /** A port piece that does not start with a digit or a sign makes Integer.valueOf throw. */
  lemma NotNumberPort(host: string, portText: string)
    requires ':' !in host && ':' !in portText
    requires portText != [] && !IsDigit(portText[0]) && portText[0] != '-' && portText[0] != '+'
    ensures ParseHostValue(host + ":" + portText) == PortNotNumber(portText)
  {
    assert ParseInt(portText) == None;
    HostAndPort(host, portText);
  }

  /** The lines of a two-line request whose header block ends with an empty CRLF line. */
  lemma RequestLines(first: string, second: string)
    requires '\n' !in first && '\n' !in second
    ensures Lines(first + "\n" + second + "\r\n\r\n") == [first, second + "\r", "\r"]
  {
    var parts := [first, second + "\r", "\r", ""];
    assert Join(parts[3..], '\n') == "";
    assert Join(parts[2..], '\n') == "\r\n";
    assert Join(parts[1..], '\n') == second + "\r" + "\n" + "\r\n";
    assert Join(parts, '\n') == first + "\n" + second + "\r\n\r\n";
    assert '\n' !in second + "\r";
    JavaSplitJoin(parts, '\n');
    assert DropTrailingEmpty(parts) == DropTrailingEmpty(parts[..3]) == parts[..3];
  }

  /**
   A request line `first` (with its CR) followed by one Host line and the empty
   line that ends the header (CRLF endings): the trimmed Host value decides.
   */
  lemma HostRequest(first: string, v: string)
    requires '\n' !in first && '\n' !in v && !IsHostLine(first)
    ensures ParseHeader(first + "\n" + HostPrefix + v + "\r\n\r\n") == ParseHostValue(Trim(v))
  {
    var second := HostPrefix + v;
    assert first + "\n" + HostPrefix + v + "\r\n\r\n" == first + "\n" + second + "\r\n\r\n";
    RequestLines(first, second);
    var lines := [first, second + "\r", "\r"];
    assert IsHostLine(lines[1]);
    assert FirstHostLine(lines) == Some(1);
    CarriageReturnIgnored(v);
    assert second[6..] == v;
  }

  /** A request whose Host line is `host:port`, the port in decimal, names that host and port. */
  lemma HostPortRequest(first: string, host: string, port: int)
    requires '\n' !in first && !IsHostLine(first)
    requires '\n' !in host && ':' !in host && (host == [] || !IsBlank(host[0]))
    requires IntMin <= port <= IntMax
    ensures ParseHeader(first + "\n" + HostPrefix + (host + ":" + Show(port)) + "\r\n\r\n") == Found(Destination(host, port))
  {
    var v := host + ":" + Show(port);
    HostPortShape(host, port);
    HostRequest(first, v);
    TrimOfTrimmed(v);
    HostWithPort(host, port);
  }

  lemma HostPortShape(host: string, port: int)
    requires '\n' !in host && (host == [] || !IsBlank(host[0]))
    ensures var v := host + ":" + Show(port);
            '\n' !in v && !IsBlank(v[0]) && !IsBlank(v[|v| - 1])
  {
    var digits := Show(port);
    var v := host + ":" + digits;
    ShowChars(port);
    assert v[|v| - 1] == digits[|digits| - 1];
    assert forall k | 0 <= k < |v| :: v[k] == if k < |host| then host[k] else if k == |host| then ':' else digits[k - |host| - 1];
  }

  /** A request line followed only by the empty line that ends the header names no destination. */
  lemma RequestWithoutHost(first: string)
    requires '\n' !in first && !IsHostLine(first)
    ensures ParseHeader(first + "\n\r\n") == NoHostLine
  {
    var parts := [first, "\r", ""];
    assert Join(parts[2..], '\n') == "";
    assert Join(parts[1..], '\n') == "\r\n";
    assert Join(parts, '\n') == first + "\n\r\n";
    JavaSplitJoin(parts, '\n');
    assert DropTrailingEmpty(parts) == DropTrailingEmpty(parts[..2]) == parts[..2];
    assert |parts[1]| < |HostPrefix|;
    assert FirstHostLine(parts[..2]) == None;
  }

  // ---------------------------------------------------------------- worked examples

  lemma PortBetweenFirstAndSecondColon()
    ensures ParseHostValue("a:1:2") == Found(Destination("a", 1))
  {
    var parts := ["a", "1", "2"];
    assert Join(parts[2..], ':') == "2";
    assert Join(parts[1..], ':') == "1:2";
    assert Join(parts, ':') == "a:1:2";
    JavaSplitJoin(parts, ':');
    ParseShow(1);
    assert DigitChar(1) == '1';
  }

  lemma EmptyPortThrows()
    ensures ParseHostValue("a:") == PortMissing
    ensures ParseHostValue("a::") == PortMissing
  {
    var parts := ["a", ""];
    assert Join(parts[1..], ':') == "";
    assert Join(parts, ':') == "a:";
    JavaSplitJoin(parts, ':');
    assert DropTrailingEmpty(parts) == DropTrailingEmpty(parts[..1]) == parts[..1];
    var parts' := ["a", "", ""];
    assert Join(parts'[2..], ':') == "";
    assert Join(parts'[1..], ':') == ":";
    assert Join(parts', ':') == "a::";
    JavaSplitJoin(parts', ':');
    assert DropTrailingEmpty(parts') == DropTrailingEmpty(parts'[..2]);
    assert DropTrailingEmpty(parts'[..2]) == DropTrailingEmpty(parts'[..1]) == parts'[..1];
  }

  lemma EmptyPieceBeforePort()
    ensures ParseHostValue("a::80") == PortNotNumber("")
  {
    var parts := ["a", "", "80"];
    assert Join(parts[2..], ':') == "80";
    assert Join(parts[1..], ':') == ":80";
    assert Join(parts, ':') == "a::80";
    JavaSplitJoin(parts, ':');
  }
}
