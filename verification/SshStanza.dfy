/** The stanza ltvm appends to root's ssh config, and the line machine that takes it out. */
module SshStanza {
  import opened Text

  const MARKER := "# lustre-test-vms"

  // ---- lines --------------------------------------------------------------------------

  /** The characters at which Python's splitlines ends a line. */
  predicate IsBreak(c: char) {
    || '\n' <= c <= '\r' || '\U{1C}' <= c <= '\U{1E}'
    || c == '\U{85}' || c == '\U{2028}' || c == '\U{2029}'
  }

  /** How long the first line is, its break included; "\r\n" is one break. */
  function FirstLine(s: string): (n: nat)
    requires s != ""
    ensures 1 <= n <= |s|
  {
    if IsBreak(s[0]) then (if s[0] == '\r' && |s| > 1 && s[1] == '\n' then 2 else 1)
    else if |s| == 1 then 1
    else 1 + FirstLine(s[1..])
  }

  /** splitlines(keepends=True) */
  function Lines(s: string): seq<string>
    decreases |s|
  {
    if s == "" then [] else [s[..FirstLine(s)]] + Lines(s[FirstLine(s)..])
  }

  function Concat(lines: seq<string>): string {
    if lines == [] then "" else lines[0] + Concat(lines[1..])
  }

  predicate Ended(l: string) { l != "" && IsBreak(l[|l| - 1]) }

  /** Non-empty lines, each ended by a break but perhaps the last. */
  predicate LineList(lines: seq<string>) {
    forall i :: 0 <= i < |lines| ==> lines[i] != "" && (i < |lines| - 1 ==> Ended(lines[i]))
  }

  lemma {:induction false} FirstLineEnds(s: string)
    requires s != ""
    ensures FirstLine(s) < |s| ==> Ended(s[..FirstLine(s)])
  {
    if !IsBreak(s[0]) && |s| > 1 {
      FirstLineEnds(s[1..]);
      var n := FirstLine(s);
      assert n < |s| ==> s[..n][n - 1] == s[1..][..n - 1][n - 2];
    }
  }

  /** splitlines loses nothing. */
  lemma {:induction false} LinesConcat(s: string)
    ensures Concat(Lines(s)) == s && LineList(Lines(s))
    decreases |s|
  {
    if s != "" {
      var n := FirstLine(s);
      LinesConcat(s[n..]);
      FirstLineEnds(s);
      assert s[..n] + s[n..] == s;
      assert Lines(s)[1..] == Lines(s[n..]);
      assert Lines(s[n..]) != [] ==> n < |s|;
    }
  }

  lemma {:induction false} FirstLineStays(a: string, b: string)
    requires a != "" && a[|a| - 1] == '\n'
    ensures FirstLine(a + b) == FirstLine(a)
  {
    if !IsBreak(a[0]) {
      assert |a| > 1;
      FirstLineStays(a[1..], b);
      assert (a + b)[1..] == a[1..] + b;
    }
  }

  /** A text cut after a newline is cut between two lines. */
  lemma {:induction false} LinesAppend(a: string, b: string)
    requires a == "" || a[|a| - 1] == '\n'
    ensures Lines(a + b) == Lines(a) + Lines(b)
    decreases |a|
  {
    if a == "" {
      assert a + b == b;
    } else {
      var n := FirstLine(a);
      FirstLineStays(a, b);
      assert (a + b)[..n] == a[..n] && (a + b)[n..] == a[n..] + b;
      LinesAppend(a[n..], b);
    }
  }

  predicate Unbroken(s: string) { forall i :: 0 <= i < |s| ==> !IsBreak(s[i]) }

  lemma {:induction false} FirstLineWhole(l: string)
    requires Unbroken(l)
    ensures FirstLine(l + "\n") == |l| + 1
  {
    if l != "" {
      FirstLineWhole(l[1..]);
      assert (l + "\n")[1..] == l[1..] + "\n";
    }
  }

  lemma OneLine(l: string)
    requires Unbroken(l)
    ensures Lines(l + "\n") == [l + "\n"]
  {
    FirstLineWhole(l);
    var t := l + "\n";
    assert t[..|t|] == t && t[|t|..] == "";
    assert Lines(t) == [t] + Lines("");
  }

  // ---- finding text ---------------------------------------------------------------------

  predicate Contains(s: string, t: string) { exists i :: 0 <= i <= |s| && t <= s[i..] }

  lemma ContainsInside(a: string, s: string, b: string, t: string)
    requires Contains(s, t)
    ensures Contains(a + s + b, t)
  {
    var i :| 0 <= i <= |s| && t <= s[i..];
    var w := a + s + b;
    assert w[|a| + i..] == s[i..] + b;
    assert t <= w[|a| + i..];
  }

  lemma Across(a: string, b: string, t: string, i: nat)
    requires i <= |a + b| && t <= (a + b)[i..]
    ensures i < |a| < i + |t| ==> t[|a| - 1 - i] == a[|a| - 1]
  {
    assert i < |a| < i + |t| ==> t[|a| - 1 - i] == (a + b)[i..][|a| - 1 - i];
  }

  /** Text without breaks that is found across ended lines is found in one of them. */
  lemma ContainsOneOf(a: string, b: string, t: string)
    requires t != "" && Unbroken(t) && (Ended(a) || b == "") && Contains(a + b, t)
    ensures Contains(a, t) || Contains(b, t)
  {
    var w := a + b;
    var i :| 0 <= i <= |w| && t <= w[i..];
    Across(a, b, t, i);
    if i >= |a| {
      assert w[i..] == b[i - |a|..];
    } else if i + |t| <= |a| {
      assert forall j :: 0 <= j < |t| ==> a[i..][j] == w[i..][j];
      assert t <= a[i..];
    }
  }

  lemma {:induction false} ContainsConcat(lines: seq<string>, t: string)
    requires t != "" && Unbroken(t) && LineList(lines)
    ensures Contains(Concat(lines), t) <==> exists i :: 0 <= i < |lines| && Contains(lines[i], t)
  {
    if lines == [] {
      assert Concat(lines) == "";
    } else {
      var rest := lines[1..];
      assert LineList(rest);
      ContainsConcat(rest, t);
      assert forall i :: 0 <= i < |rest| ==> rest[i] == lines[i + 1];
      if Contains(Concat(lines), t) {
        ContainsOneOf(lines[0], Concat(rest), t);
      }
      if Contains(lines[0], t) {
        ContainsInside("", lines[0], Concat(rest), t);
        assert "" + lines[0] + Concat(rest) == Concat(lines);
      }
      if Contains(Concat(rest), t) {
        ContainsInside(lines[0], Concat(rest), "", t);
        assert lines[0] + Concat(rest) + "" == Concat(lines);
      }
    }
  }

  // ---- stripping ---------------------------------------------------------------------------

  predicate IsHost(l: string) { "Host " <= Strip(l) }

  /** The lines that stay.  `skip`: in ltvm's stanza; `seen`: its Host line has gone by. */
  function Remaining(lines: seq<string>, skip: bool, seen: bool): seq<string>
    decreases |lines|
  {
    if lines == [] then []
    else
      var l, rest := lines[0], lines[1..];
      if Contains(l, MARKER) then Remaining(rest, true, false)
      else if !skip then [l] + Remaining(rest, false, seen)
      else if Strip(l) == "" then Remaining(rest, false, seen)
      else if l != "" && IsSpace(l[0]) then Remaining(rest, true, seen)
      else if !seen && IsHost(l) then Remaining(rest, true, true)
      else [l] + Remaining(rest, false, seen)
  }

  function WithoutStanza(text: string): string { Concat(Remaining(Lines(text), false, false)) }

  method StripSshBlock(text: string) returns (kept: string)
    ensures kept == WithoutStanza(text)
  {
    var lines := SplitLines(text);
    var out := RemainingLines(lines);
    kept := ConcatLines(out);
  }

  method RemainingLines(lines: seq<string>) returns (out: seq<string>)
    ensures out == Remaining(lines, false, false)
  {
    var skip, seen := false, false;
    out := [];
    var i := 0;
    while i < |lines|
      invariant i <= |lines|
      invariant out + Remaining(lines[i..], skip, seen) == Remaining(lines, false, false)
    {
      var l := lines[i];
      assert lines[i..][0] == l && lines[i..][1..] == lines[i + 1..];
      i := i + 1;
      if Contains(l, MARKER) {
        skip, seen := true, false;
        continue;
      }
      if !skip {
        out := out + [l];
        continue;
      }
      var bare := Strip(l);
      if bare == "" {
        skip := false;
        continue;
      }
      if l != "" && IsSpace(l[0]) {
        continue;
      }
      if !seen && "Host " <= bare {
        seen := true;
        continue;
      }
      skip := false;
      out := out + [l];
    }
  }

  method SplitLines(text: string) returns (lines: seq<string>)
    ensures lines == Lines(text)
  {
    lines := [];
    var rest := text;
    while rest != ""
      invariant lines + Lines(rest) == Lines(text)
      decreases |rest|
    {
      var n := FirstLine(rest);
      lines, rest := lines + [rest[..n]], rest[n..];
    }
  }

  method ConcatLines(lines: seq<string>) returns (text: string)
    ensures text == Concat(lines)
  {
    text := "";
    for i := 0 to |lines|
      invariant text + Concat(lines[i..]) == Concat(lines)
    {
      assert lines[i..][1..] == lines[i + 1..];
      text := text + lines[i];
    }
  }

  // ---- what stripping does to any text --------------------------------------------------------

  ghost predicate Subsequence(a: seq<string>, b: seq<string>)
    decreases |b|
  {
    || a == []
    || (b != [] && a[0] == b[0] && Subsequence(a[1..], b[1..]))
    || (b != [] && Subsequence(a, b[1..]))
  }

  /** What stays is some of the lines, in order, and none of them is marked. */
  lemma {:induction false} RemainingIsMarkerFree(lines: seq<string>, skip: bool, seen: bool)
    requires LineList(lines)
    ensures var r := Remaining(lines, skip, seen);
            Subsequence(r, lines) && LineList(r) && (forall i :: 0 <= i < |r| ==> !Contains(r[i], MARKER))
    ensures Remaining(lines, skip, seen) != [] ==> |lines| > 0
    decreases |lines|
  {
    if lines != [] {
      var l, rest := lines[0], lines[1..];
      assert LineList(rest);
      RemainingIsMarkerFree(rest, true, false);
      RemainingIsMarkerFree(rest, false, seen);
      RemainingIsMarkerFree(rest, true, seen);
      RemainingIsMarkerFree(rest, true, true);
      var r := Remaining(lines, skip, seen);
      if !Contains(l, MARKER) && (!skip || (Strip(l) != "" && !IsSpace(l[0]) && !(!seen && IsHost(l)))) {
        assert r == [l] + Remaining(rest, false, seen) && r[1..] == Remaining(rest, false, seen);
      }
    }
  }

  lemma {:induction false} RemainingIsAll(lines: seq<string>, seen: bool)
    requires forall i :: 0 <= i < |lines| ==> !Contains(lines[i], MARKER)
    ensures Remaining(lines, false, seen) == lines
  {
    if lines != [] {
      RemainingIsAll(lines[1..], seen);
    }
  }

  lemma MarkerUnbroken()
    ensures MARKER != "" && Unbroken(MARKER)
  {
  }

  lemma MarkerFreeLines(text: string)
    requires !Contains(text, MARKER)
    ensures forall i :: 0 <= i < |Lines(text)| ==> !Contains(Lines(text)[i], MARKER)
  {
    MarkerUnbroken();
    LinesConcat(text);
    ContainsConcat(Lines(text), MARKER);
  }

  /** Text without the marker is left alone. */
  lemma StripLeavesOthersAlone(text: string)
    requires !Contains(text, MARKER)
    ensures WithoutStanza(text) == text
  {
    MarkerFreeLines(text);
    RemainingIsAll(Lines(text), false);
    LinesConcat(text);
  }

  /** For every text: no marker is left, and stripping again changes nothing. */
  lemma StripIsFinal(text: string)
    ensures !Contains(WithoutStanza(text), MARKER)
    ensures WithoutStanza(WithoutStanza(text)) == WithoutStanza(text)
    ensures exists out :: Subsequence(out, Lines(text)) && WithoutStanza(text) == Concat(out)
  {
    LinesConcat(text);
    RemainingIsMarkerFree(Lines(text), false, false);
    MarkerUnbroken();
    ContainsConcat(Remaining(Lines(text), false, false), MARKER);
    StripLeavesOthersAlone(WithoutStanza(text));
  }

  // ---- ltvm's own stanza -----------------------------------------------------------------------

  const OPTIONS := ["    StrictHostKeyChecking no", "    UserKnownHostsFile /dev/null", "    LogLevel ERROR",
                    "    ServerAliveInterval 5", "    ServerAliveCountMax 3", "    ConnectTimeout 5", "    User root"]

  function HostLine(subnet: string): string { "Host " + subnet + ".*" }

  function StanzaLines(subnet: string): seq<string> { [MARKER, HostLine(subnet)] + OPTIONS }

  function Written(lines: seq<string>): string {
    if lines == [] then "" else lines[0] + "\n" + Written(lines[1..])
  }

  /** What setup_ssh appends: a newline of its own, then the stanza. */
  function Block(subnet: string): string { "\n" + Written(StanzaLines(subnet)) }

  predicate SubnetOk(subnet: string) { Unbroken(subnet) && '#' !in subnet }

  predicate OptionOk(l: string) { |l| > 4 && l[0] == ' ' && !IsSpace(l[4]) && Unbroken(l) && '#' !in l }

  lemma OptionsOk()
    ensures forall i :: 0 <= i < |OPTIONS| ==> OptionOk(OPTIONS[i])
  {
    FirstOptionOk();
    SecondOptionOk();
    MoreOptionsOk();
    LastOptionsOk();
  }

  lemma FirstOptionOk()
    ensures OptionOk("    StrictHostKeyChecking no")
  {
  }

  lemma SecondOptionOk()
    ensures OptionOk("    UserKnownHostsFile /dev/null")
  {
  }

  lemma MoreOptionsOk()
    ensures OptionOk("    LogLevel ERROR") && OptionOk("    ServerAliveInterval 5")
  {
  }

  lemma LastOptionsOk()
    ensures OptionOk("    ServerAliveCountMax 3") && OptionOk("    ConnectTimeout 5") && OptionOk("    User root")
  {
  }

  lemma {:induction false} WrittenLines(lines: seq<string>)
    requires forall i :: 0 <= i < |lines| ==> Unbroken(lines[i])
    ensures Lines(Written(lines)) == seq(|lines|, i requires 0 <= i < |lines| => lines[i] + "\n")
    ensures lines != [] ==> Written(lines) != "" && Written(lines)[|Written(lines)| - 1] == '\n'
  {
    if lines != [] {
      WrittenLines(lines[1..]);
      OneLine(lines[0]);
      LinesAppend(lines[0] + "\n", Written(lines[1..]));
    }
  }

  lemma NoHashNoMarker(l: string)
    requires '#' !in l
    ensures !Contains(l, MARKER)
  {
    forall i | 0 <= i <= |l| ensures !(MARKER <= l[i..]) {
      assert i < |l| ==> l[i..][0] == l[i] && l[i] != '#';
    }
  }

  /** The options under the Host line go. */
  lemma {:induction false} OptionsGo(opts: seq<string>, rest: seq<string>)
    requires forall i :: 0 <= i < |opts| ==> OptionOk(opts[i])
    ensures Remaining(seq(|opts|, i requires 0 <= i < |opts| => opts[i] + "\n") + rest, true, true)
            == Remaining(rest, true, true)
  {
    var all := seq(|opts|, i requires 0 <= i < |opts| => opts[i] + "\n") + rest;
    if opts == [] {
      assert all == rest;
    } else {
      var l := opts[0] + "\n";
      assert l[4] == opts[0][4];
      NotBlank(l, 4);
      NoHashNoMarker(l);
      OptionsGo(opts[1..], rest);
      assert all[1..] == seq(|opts[1..]|, i requires 0 <= i < |opts[1..]| => opts[1..][i] + "\n") + rest;
    }
  }

  lemma HostLineGoes(subnet: string, rest: seq<string>)
    requires SubnetOk(subnet)
    ensures Remaining([HostLine(subnet) + "\n"] + rest, true, false) == Remaining(rest, true, true)
  {
    var h := HostLine(subnet);
    var l := h + "\n";
    assert h[0] == 'H' && h[|h| - 1] == '*';
    StripLine(h);
    NoHashNoMarker(l);
    assert ([l] + rest)[1..] == rest;
  }

  lemma MarkerGoes(rest: seq<string>, skip: bool, seen: bool)
    ensures Remaining([MARKER + "\n"] + rest, skip, seen) == Remaining(rest, true, false)
  {
    assert MARKER <= (MARKER + "\n")[0..];
    assert ([MARKER + "\n"] + rest)[1..] == rest;
  }

  /** The whole stanza goes, and the machine is left waiting for its end. */
  lemma StanzaGoes(subnet: string, rest: seq<string>)
    requires SubnetOk(subnet)
    ensures Remaining(Lines(Written(StanzaLines(subnet))) + rest, false, false) == Remaining(rest, true, true)
  {
    StanzaSplits(subnet);
    OptionsOk();
    OptionsGo(OPTIONS, rest);
    StanzaGoesWith(subnet, seq(|OPTIONS|, i requires 0 <= i < |OPTIONS| => OPTIONS[i] + "\n"), rest);
  }

  lemma StanzaGoesWith(subnet: string, opts: seq<string>, rest: seq<string>)
    requires SubnetOk(subnet) && Remaining(opts + rest, true, true) == Remaining(rest, true, true)
    ensures Remaining([MARKER + "\n", HostLine(subnet) + "\n"] + opts + rest, false, false)
            == Remaining(rest, true, true)
  {
    HostLineGoes(subnet, opts + rest);
    MarkerGoes([HostLine(subnet) + "\n"] + (opts + rest), false, false);
    TwoThenRest(MARKER + "\n", HostLine(subnet) + "\n", opts, rest);
  }

  lemma TwoThenRest(a: string, b: string, c: seq<string>, d: seq<string>)
    ensures [a, b] + c + d == [a] + ([b] + (c + d))
  {
  }

  lemma StanzaSplits(subnet: string)
    requires SubnetOk(subnet)
    ensures Lines(Written(StanzaLines(subnet)))
         == [MARKER + "\n", HostLine(subnet) + "\n"]
           + seq(|OPTIONS|, i requires 0 <= i < |OPTIONS| => OPTIONS[i] + "\n")
    ensures Written(StanzaLines(subnet)) != ""
            && Written(StanzaLines(subnet))[|Written(StanzaLines(subnet))| - 1] == '\n'
  {
    MarkerUnbroken();
    OptionsOk();
    var ls := StanzaLines(subnet);
    forall i | 0 <= i < |ls| ensures Unbroken(ls[i]) {
      assert i >= 2 ==> ls[i] == OPTIONS[i - 2];
    }
    WrittenLines(ls);
  }

  lemma {:induction false} ConcatAppend(a: seq<string>, b: seq<string>)
    ensures Concat(a + b) == Concat(a) + Concat(b)
  {
    if a == [] {
      assert a + b == b;
    } else {
      ConcatAppend(a[1..], b);
      assert (a + b)[1..] == a[1..] + b;
    }
  }

  lemma {:induction false} RemainingAppend(a: seq<string>, b: seq<string>)
    requires forall i :: 0 <= i < |a| ==> !Contains(a[i], MARKER)
    ensures Remaining(a + b, false, false) == a + Remaining(b, false, false)
  {
    if a == [] {
      assert a + b == b;
    } else {
      RemainingAppend(a[1..], b);
      assert (a + b)[1..] == a[1..] + b;
    }
  }

  lemma {:induction false} RemainingIsShorter(lines: seq<string>, skip: bool, seen: bool)
    ensures |Concat(Remaining(lines, skip, seen))| <= |Concat(lines)|
    decreases |lines|
  {
    if lines != [] {
      RemainingIsShorter(lines[1..], true, false);
      RemainingIsShorter(lines[1..], false, seen);
      RemainingIsShorter(lines[1..], true, seen);
      RemainingIsShorter(lines[1..], true, true);
    }
  }

  /** Inside the stanza, what follows stays whole exactly when its first line is not blank
      and not indented. */
  lemma FollowerStays(post: string)
    requires !Contains(post, MARKER)
    ensures Concat(Remaining(Lines(post), true, true)) == post <==> post == "" || !IsSpace(post[0])
  {
    if post != "" {
      var n := FirstLine(post);
      var l, rest := post[..n], Lines(post[n..]);
      LinesConcat(post);
      LinesConcat(post[n..]);
      MarkerFreeLines(post);
      assert Lines(post)[0] == l && Lines(post)[1..] == rest;
      assert forall i :: 0 <= i < |rest| ==> rest[i] == Lines(post)[i + 1];
      if IsSpace(post[0]) {
        RemainingIsShorter(rest, true, true);
        RemainingIsShorter(rest, false, true);
      } else {
        NotBlank(l, 0);
        RemainingIsAll(rest, true);
      }
    }
  }

  /** The text around an appended stanza. */
  lemma StripAround(pre: string, subnet: string, post: string)
    requires SubnetOk(subnet) && !Contains(pre, MARKER)
    ensures WithoutStanza(pre + Block(subnet) + post) == pre + "\n" + Concat(Remaining(Lines(post), true, true))
  {
    var head, stanza := pre + "\n", Written(StanzaLines(subnet));
    assert pre + Block(subnet) + post == head + (stanza + post);
    LinesAppend(head, stanza + post);
    StanzaSplits(subnet);
    LinesAppend(stanza, post);
    HeadMarkerFree(pre);
    MarkerFreeLines(head);
    RemainingAppend(Lines(head), Lines(stanza) + Lines(post));
    StanzaGoes(subnet, Lines(post));
    LinesConcat(head);
    ConcatAppend(Lines(head), Remaining(Lines(post), true, true));
  }

  lemma HeadMarkerFree(pre: string)
    requires !Contains(pre, MARKER)
    ensures !Contains(pre + "\n", MARKER)
  {
    MarkerUnbroken();
    if Contains(pre + "\n", MARKER) {
      NewlineOutside(pre, MARKER);
    }
  }

  lemma NewlineOutside(pre: string, t: string)
    requires t != "" && Unbroken(t) && Contains(pre + "\n", t)
    ensures Contains(pre, t)
  {
    var w := pre + "\n";
    var i :| 0 <= i <= |w| && t <= w[i..];
    assert t[|t| - 1] == w[i..][|t| - 1] == w[i + |t| - 1];
    assert forall j :: 0 <= j < |t| ==> pre[i..][j] == w[i..][j];
    assert t <= pre[i..];
  }

  /** Taking the stanza out of a file it was appended to, and that grew after it, gives back
      what was before, one newline, and all that came after, exactly when what came after
      does not start with a blank or indented line. */
  lemma StripUndoesAppend(pre: string, subnet: string, post: string)
    requires SubnetOk(subnet) && !Contains(pre, MARKER) && !Contains(post, MARKER)
    ensures WithoutStanza(pre + Block(subnet) + post) == pre + "\n" + post <==> post == "" || !IsSpace(post[0])
  {
    StripAround(pre, subnet, post);
    FollowerStays(post);
    var kept := Concat(Remaining(Lines(post), true, true));
    assert (pre + "\n" + kept)[|pre| + 1..] == kept && (pre + "\n" + post)[|pre| + 1..] == post;
  }

  // ---- setup_ssh -----------------------------------------------------------------------------------

  function Setup(text: string, subnet: string): string {
    if Contains(text, MARKER) then
      if Contains(text, "Host " + subnet + ".") then text else WithoutStanza(text) + Block(subnet)
    else text + Block(subnet)
  }

  lemma WrittenTwo(a: string, b: string, rest: seq<string>)
    ensures Written([a, b] + rest) == a + "\n" + (b + "\n" + Written(rest))
  {
    var ls := [a, b] + rest;
    assert ls[1..] == [b] + rest && ls[1..][1..] == rest;
  }

  lemma FoundAfter(a: string, t: string, b: string)
    ensures Contains(a + t + b, t)
  {
    assert (a + t + b)[|a|..] == t + b;
  }

  lemma BlockIsFound(text: string, subnet: string)
    ensures Contains(text + Block(subnet), MARKER) && Contains(text + Block(subnet), "Host " + subnet + ".")
  {
    BlockText(text, MARKER, "Host " + subnet + ".", Written(OPTIONS));
    WrittenTwo(MARKER, HostLine(subnet), OPTIONS);
    assert HostLine(subnet) == "Host " + subnet + "." + "*";
  }

  lemma BlockText(text: string, marker: string, host: string, tail: string)
    ensures var w := text + ("\n" + (marker + "\n" + (host + "*" + "\n" + tail)));
            Contains(w, marker) && Contains(w, host)
  {
    FoundSecond(text, "\n", marker, "\n" + (host + "*" + "\n" + tail));
    FoundFourth(text, "\n", marker, host, "*" + "\n" + tail);
    assert marker + "\n" + (host + "*" + "\n" + tail) == marker + ("\n" + (host + "*" + "\n" + tail));
    assert host + "*" + "\n" + tail == host + ("*" + "\n" + tail);
  }

  lemma FoundSecond(a: string, b: string, t: string, c: string)
    ensures Contains(a + (b + (t + c)), t)
  {
    FoundAfter(a + b, t, c);
    assert a + (b + (t + c)) == a + b + t + c;
  }

  lemma FoundFourth(a: string, b: string, c: string, t: string, d: string)
    ensures Contains(a + (b + (c + b + (t + d))), t)
  {
    FoundAfter(a + b + c + b, t, d);
    assert a + (b + (c + b + (t + d))) == a + b + c + b + t + d;
  }

  lemma StripAppended(pre: string, subnet: string)
    requires SubnetOk(subnet) && !Contains(pre, MARKER)
    ensures WithoutStanza(pre + Block(subnet)) == pre + "\n"
  {
    NothingInNothing();
    StripUndoesAppend(pre, subnet, "");
    assert pre + Block(subnet) + "" == pre + Block(subnet);
    assert pre + "\n" + "" == pre + "\n";
  }

  /** Setting up twice changes nothing more. */
  lemma SetupIsIdempotent(text: string, subnet: string)
    ensures Setup(Setup(text, subnet), subnet) == Setup(text, subnet)
  {
    BlockIsFound(text, subnet);
    BlockIsFound(WithoutStanza(text), subnet);
  }

  /** A setup that writes leaves one stanza, the last thing in the file, and a later strip
      takes exactly it away. */
  lemma SetupLeavesOneStanza(text: string, subnet: string)
    requires SubnetOk(subnet)
    ensures || (Setup(text, subnet) == text && Contains(text, MARKER) && Contains(text, "Host " + subnet + "."))
            || exists rest :: !Contains(rest, MARKER) && Setup(text, subnet) == rest + Block(subnet)
                           && WithoutStanza(Setup(text, subnet)) == rest + "\n"
  {
    var rest := if Contains(text, MARKER) then WithoutStanza(text) else text;
    if !(Contains(text, MARKER) && Contains(text, "Host " + subnet + ".")) {
      StripIsFinal(text);
      StripAppended(rest, subnet);
    }
  }

  lemma NothingInNothing()
    ensures !Contains("", MARKER)
  {
  }

  /** A new subnet replaces the stanza of the old one; the newline before it stays behind. */
  lemma SetupMovesSubnet(pre: string, was: string, now: string)
    requires SubnetOk(was) && SubnetOk(now) && !Contains(pre, MARKER)
    requires !Contains(pre + Block(was), "Host " + now + ".")
    ensures Setup(pre + Block(was), now) == pre + "\n" + Block(now)
  {
    BlockIsFound(pre, was);
    StripAppended(pre, was);
  }
}
