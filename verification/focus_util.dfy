/** The string transforms of the Linux focus helpers (src/linux_focus_util.h):
    display-server selection, POSIX single-quote escaping of a window title,
    and the Hyprland and xdotool backslash escapes. The commands built from
    them are handed to `system()`, which is not part of this model; instead
    `Words` states how a POSIX shell splits a command argument into words,
    so the quoting can be checked against it. */
module FocusUtil {
  import opened Bytes
  import opened Escaping

  /** `DisplayServerType`. */
  datatype DisplayServerType = DsUnknown | DsX11 | DsWayland

  /** `detect_display_server`, given whether `WAYLAND_DISPLAY` and `DISPLAY`
      are set: Wayland takes precedence over X11, and the result is unknown
      only when neither variable is set. */
  function DetectDisplayServer(waylandDisplaySet: bool, displaySet: bool): (r: DisplayServerType)
    ensures r == DsWayland <==> waylandDisplaySet
    ensures r == DsX11 <==> !waylandDisplaySet && displaySet
    ensures r == DsUnknown <==> !waylandDisplaySet && !displaySet
  {
    if waylandDisplaySet then DsWayland
    else if displaySet then DsX11
    else DsUnknown
  }

  /** `linux_wchar_to_utf8_string_for_focus`: a null title converts to the
      empty string, and so does a title the converter rejects. The converter
      itself is a parameter. */
  function ConvertForFocus(title: Option<string>, convert: string -> Option<string>): (r: string)
    ensures title.None? ==> r == []
    ensures title.Some? && convert(title.value).None? ==> r == []
    ensures title.Some? && convert(title.value).Some? ==> r == convert(title.value).value
  {
    match title
    case None => []
    case Some(w) =>
      match convert(w)
      case None => []
      case Some(u) => u
  }

  // ---------------------------------------------------------------------
  // POSIX single-quote escaping

  /** The body of the single-quoted title: every `'` replaced by `'\''`
      (close the quote, an escaped quote, reopen), every other character
      copied. */
  function QuotedBody(s: string): string
  {
    if s == [] then []
    else (if s[0] == '\'' then "'\\''" else [s[0]]) + QuotedBody(s[1..])
  }

  /** The escaped title the Wayland and generic helpers build: the body
      between two single quotes. */
  function ShellSingleQuoted(s: string): string
  {
    "'" + QuotedBody(s) + "'"
  }

  /** How many single quotes `s` holds. */
  function QuoteCount(s: string): nat
  {
    CountIn(s, {'\''})
  }

  lemma {:induction false} QuotedBodyAppend(a: string, b: string)
    ensures QuotedBody(a + b) == QuotedBody(a) + QuotedBody(b)
  {
    if a == [] {
      assert a + b == b;
    } else {
      assert (a + b)[1..] == a[1..] + b;
      QuotedBodyAppend(a[1..], b);
    }
  }

  /** The escaping loop of `focus_window_wayland` and
      `focus_window_generic_tools`. */
  method EscapeSingleQuoted(name: string) returns (escaped: string)
    ensures escaped == ShellSingleQuoted(name)
  {
    escaped := "'";
    for i := 0 to |name|
      invariant escaped == "'" + QuotedBody(name[..i])
    {
      if name[i] == '\'' {
        escaped := escaped + "'\\''";
      } else {
        escaped := escaped + [name[i]];
      }
      assert name[..i + 1] == name[..i] + [name[i]];
      QuotedBodyAppend(name[..i], [name[i]]);
    }
    assert name[..|name|] == name;
    escaped := escaped + "'";
  }

  /** The escaped title starts and ends with a single quote and is three
      characters longer per quote in the title, plus the two enclosing
      quotes. */
  lemma {:induction false} ShellSingleQuotedShape(s: string)
    ensures |ShellSingleQuoted(s)| == |s| + 2 + 3 * QuoteCount(s)
    ensures ShellSingleQuoted(s)[0] == '\''
    ensures ShellSingleQuoted(s)[|ShellSingleQuoted(s)| - 1] == '\''
  {
    QuotedBodyLength(s);
  }

  lemma {:induction false} QuotedBodyLength(s: string)
    ensures |QuotedBody(s)| == |s| + 3 * QuoteCount(s)
  {
    if s != [] {
      QuotedBodyLength(s[1..]);
    }
  }

  /** A title without single quotes is copied unchanged into the body. */
  lemma {:induction false} QuotedBodyOfQuoteFree(s: string)
    requires forall i :: 0 <= i < |s| ==> s[i] != '\''
    ensures QuotedBody(s) == s
  {
    if s != [] {
      QuotedBodyOfQuoteFree(s[1..]);
    }
  }

  // ---------------------------------------------------------------------
  // How a POSIX shell reads an argument

  /** The word under construction, empty if none has started. */
  function Started(cur: Option<string>): string
  {
    if cur.Some? then cur.value else []
  }

  /** The words a POSIX shell reads from `t` (section 2.2 and 2.6.5 of
      POSIX.1-2017, "Quoting" and "Field Splitting"), for text of ordinary
      characters, blanks, single quotes and backslashes: inside single quotes
      every character is literal; outside them a blank ends a word, a
      backslash makes the next character literal, and a quote opens a quoted
      run. `inQuote` says a single quote is open and `cur` holds the word
      being read, if one has started. */
  function Words(t: string, inQuote: bool, cur: Option<string>): seq<string>
    decreases |t|
  {
    if t == [] then (if cur.Some? then [cur.value] else [])
    else if inQuote then
      if t[0] == '\'' then Words(t[1..], false, Some(Started(cur)))
      else Words(t[1..], true, Some(Started(cur) + [t[0]]))
    else if t[0] == '\'' then Words(t[1..], true, Some(Started(cur)))
    else if t[0] == ' ' then (if cur.Some? then [cur.value] else []) + Words(t[1..], false, None)
    else if t[0] == '\\' && |t| >= 2 then Words(t[2..], false, Some(Started(cur) + [t[1]]))
    else Words(t[1..], false, Some(Started(cur) + [t[0]]))
  }

  /** Inside single quotes, a run without quotes is taken literally. */
  lemma {:induction false} QuotedRun(u: string, t: string, c: string)
    requires forall i :: 0 <= i < |u| ==> u[i] != '\''
    ensures Words(u + t, true, Some(c)) == Words(t, true, Some(c + u))
  {
    if u == [] {
      assert u + t == t;
      assert c + u == c;
    } else {
      assert (u + t)[1..] == u[1..] + t;
      QuotedRun(u[1..], t, c + [u[0]]);
      assert c + [u[0]] + u[1..] == c + u;
    }
  }

  /** Outside quotes, a run of ordinary characters extends the current word. */
  lemma {:induction false} PlainRun(u: string, t: string, c: string)
    requires forall i :: 0 <= i < |u| ==> u[i] != '\'' && u[i] != ' ' && u[i] != '\\'
    ensures Words(u + t, false, Some(c)) == Words(t, false, Some(c + u))
  {
    if u == [] {
      assert u + t == t;
      assert c + u == c;
    } else {
      assert (u + t)[1..] == u[1..] + t;
      PlainRun(u[1..], t, c + [u[0]]);
      assert c + [u[0]] + u[1..] == c + u;
    }
  }

  /** Inside single quotes, `'\''` closes the quote, contributes one literal
      quote, and reopens it. */
  lemma EscapedQuoteRead(rest: string, c: string)
    ensures Words("'\\''" + rest, true, Some(c)) == Words(rest, true, Some(c + ['\'']))
  {
    var full := "'\\''" + rest;
    var f1 := full[1..];
    var f2 := f1[2..];
    assert f1 == "\\''" + rest;
    assert f2 == "'" + rest;
    assert f2[1..] == rest;
    assert Words(full, true, Some(c)) == Words(f1, false, Some(c));
    assert Words(f1, false, Some(c)) == Words(f2, false, Some(c + ['\'']));
  }

  /** The escaped body, read inside single quotes, yields the title itself. */
  lemma {:induction false} QuotedBodyRead(s: string, t: string, c: string)
    ensures Words(QuotedBody(s) + t, true, Some(c)) == Words(t, true, Some(c + s))
  {
    if s == [] {
      assert QuotedBody(s) + t == t;
      assert c + s == c;
    } else {
      var rest := QuotedBody(s[1..]) + t;
      QuotedBodyRead(s[1..], t, c + [s[0]]);
      assert c + [s[0]] + s[1..] == c + s;
      if s[0] == '\'' {
        assert QuotedBody(s) + t == "'\\''" + rest;
        EscapedQuoteRead(rest, c);
      } else {
        assert (QuotedBody(s) + t)[1..] == rest;
      }
    }
  }

  /** The escaped title is read by the shell as exactly one word: the title. */
  lemma {:induction false} ShellSingleQuotedIsOneWord(s: string)
    ensures Words(ShellSingleQuoted(s), false, None) == [s]
  {
    var t := ShellSingleQuoted(s);
    assert t[1..] == QuotedBody(s) + "'";
    QuotedBodyRead(s, "'", []);
    assert [] + s == s;
    assert "'"[1..] == [];
  }

  // ---------------------------------------------------------------------
  // The sway criterion

  /** The sway argument as the source builds it: the already quoted title is
      placed between `'[title=` and `] focus'`, so the title's own quotes
      close and reopen the outer ones and the title is read unquoted. */
  function SwayArgumentAsWritten(name: string): string
  {
    "'[title=" + ShellSingleQuoted(name) + "] focus'"
  }

  /** In the as-written sway argument a title without quotes is read
      outside any quotes: after the quoted `[title=`, the shell reads the
      title itself unquoted, so its blanks split words and its shell
      metacharacters are live. */
  lemma {:induction false} SwayTitleUnquoted(name: string)
    requires forall i :: 0 <= i < |name| ==> name[i] != '\''
    ensures Words(SwayArgumentAsWritten(name), false, None) ==
            Words(name + "'] focus'", false, Some("[title="))
  {
    var rest := "'" + name + "'] focus'";
    SwayArgumentAsWrittenShape(name);
    QuotedRun("[title=", rest, []);
    assert [] + "[title=" == "[title=";
    assert rest[1..] == name + "'] focus'";
  }

  lemma SwayArgumentAsWrittenShape(name: string)
    requires forall i :: 0 <= i < |name| ==> name[i] != '\''
    ensures SwayArgumentAsWritten(name)[0] == '\''
    ensures SwayArgumentAsWritten(name)[1..] == "[title=" + ("'" + name + "'] focus'")
  {
    QuotedBodyOfQuoteFree(name);
    assert ShellSingleQuoted(name) == "'" + name + "'";
  }

  /** A title with a blank splits the as-written sway argument into two
      words: `swaymsg` receives "[title=a" and "b] focus". The title with two
      blanks gives the same two words, so no rejoining of the words can
      recover the title. */
  lemma SwayArgumentAsWrittenSplits()
    ensures Words(SwayArgumentAsWritten("a b"), false, None) == ["[title=a", "b] focus"]
    ensures Words(SwayArgumentAsWritten("a  b"), false, None) == ["[title=a", "b] focus"]
  {
    SwayTitleUnquoted("a b");
    SwayTitleUnquoted("a  b");
    assert "a b" + "'] focus'" == "a b'] focus'";
    assert "a  b" + "'] focus'" == "a  b'] focus'";
    SwayOneBlank();
    SwayTwoBlanks();
    SwayTail();
  }

  lemma SwayOneBlank()
    ensures Words("a b'] focus'", false, Some("[title=")) == ["[title=a"] + Words("b'] focus'", false, None)
  {
    assert "a b'] focus'"[1..] == " b'] focus'";
    assert "[title=" + ['a'] == "[title=a";
    assert " b'] focus'"[1..] == "b'] focus'";
  }

  lemma SwayTwoBlanks()
    ensures Words("a  b'] focus'", false, Some("[title=")) == ["[title=a"] + Words("b'] focus'", false, None)
  {
    SwayFirstBlank();
    SwayLeadingBlank();
  }

  lemma SwayFirstBlank()
    ensures Words("a  b'] focus'", false, Some("[title=")) == ["[title=a"] + Words(" b'] focus'", false, None)
  {
    assert "a  b'] focus'"[1..] == "  b'] focus'";
    assert "[title=" + ['a'] == "[title=a";
    assert "  b'] focus'"[1..] == " b'] focus'";
  }

  lemma SwayLeadingBlank()
    ensures Words(" b'] focus'", false, None) == Words("b'] focus'", false, None)
  {
    assert " b'] focus'"[1..] == "b'] focus'";
    assert Words(" b'] focus'", false, None) == [] + Words("b'] focus'", false, None);
  }

  lemma SwayTail()
    ensures Words("b'] focus'", false, None) == ["b] focus"]
  {
    assert "b'] focus'"[1..] == "'] focus'";
    assert "'] focus'"[1..] == "] focus'";
    assert [] + ['b'] == "b";
    assert "] focus'" == "] focus" + "'";
    QuotedRun("] focus", "'", "b");
    assert "b" + "] focus" == "b] focus";
    assert "'"[1..] == [];
  }

  /** The sway argument quoted as one unit: the criterion with the title in
      it, single-quote escaped as a whole. */
  function SwayArgument(name: string): string
  {
    ShellSingleQuoted("[title=" + name + "] focus")
  }

  /** Quoted as one unit, the argument reaches `swaymsg` as one word holding
      the title verbatim, whatever characters the title contains. */
  lemma SwayArgumentIsOneWord(name: string)
    ensures Words(SwayArgument(name), false, None) == ["[title=" + name + "] focus"]
  {
    ShellSingleQuotedIsOneWord("[title=" + name + "] focus");
  }

  // ---------------------------------------------------------------------
  // Backslash escapes for Hyprland and xdotool

  /** The characters the Hyprland escape prefixes: those a POSIX shell still
      interprets inside double quotes. */
  const HYPRLAND_SPECIAL: set<char> := {'"', '$', '`', '\\'}

  /** The regular-expression metacharacters passed to `strchr` in the
      xdotool escape. */
  const XDOTOOL_METACHARS: string := "^$.[]*+?()|\\"

  /** Whether `strchr(s, c)` finds `c`: the search covers the terminating
      NUL, so a NUL character is always found. */
  predicate StrchrFinds(s: string, c: char)
  {
    c in s || c == '\0'
  }

  /** The characters the xdotool escape prefixes. */
  const XDOTOOL_SPECIAL: set<char> := {'^', '$', '.', '[', ']', '*', '+', '?', '(', ')', '|', '\\', '\0'}

  /** `XDOTOOL_SPECIAL` is exactly the set of characters `strchr` finds in
      the metacharacter string, the embedded NUL included. */
  lemma XdotoolSpecialIsStrchr(c: char)
    ensures c in XDOTOOL_SPECIAL <==> StrchrFinds(XDOTOOL_METACHARS, c)
    ensures '\0' in XDOTOOL_SPECIAL && '\\' in XDOTOOL_SPECIAL
  {
  }

  /** The Hyprland title escape of `focus_window_wayland`. */
  method HyprlandEscape(name: string) returns (escaped: string)
    ensures escaped == BackslashEscaped(name, HYPRLAND_SPECIAL)
    ensures |escaped| == |name| + CountIn(name, HYPRLAND_SPECIAL)
    ensures Unescaped(escaped, HYPRLAND_SPECIAL) == name
  {
    escaped := EscapeWith(name, HYPRLAND_SPECIAL);
    BackslashEscapedLength(name, HYPRLAND_SPECIAL);
    BackslashEscapedRoundTrip(name, HYPRLAND_SPECIAL, HYPRLAND_SPECIAL);
  }

  /** The xdotool title escape of `focus_window_generic_tools`: a
      backslash before every character `strchr` finds in the metacharacter
      string. */
  method XdotoolEscape(name: string) returns (escaped: string)
    ensures escaped == BackslashEscaped(name, XDOTOOL_SPECIAL)
    ensures |escaped| == |name| + CountIn(name, XDOTOOL_SPECIAL)
    ensures Unescaped(escaped, XDOTOOL_SPECIAL) == name
  {
    escaped := EscapeWith(name, XDOTOOL_SPECIAL);
    BackslashEscapedLength(name, XDOTOOL_SPECIAL);
    BackslashEscapedRoundTrip(name, XDOTOOL_SPECIAL, XDOTOOL_SPECIAL);
  }
}
