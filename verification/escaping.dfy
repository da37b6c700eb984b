/** Backslash escaping, the string transform behind three loops of the source:
    the Hyprland and xdotool title escapes (src/linux_focus_util.h) and the
    AppleScript escape (src/AppInstance.cpp). Each copies its input in order
    and puts a backslash in front of every character of a fixed set. */
module Escaping {

  /** `s` with a backslash in front of every character in `special`. */
  function BackslashEscaped(s: string, special: set<char>): string
  {
    if s == [] then []
    else (if s[0] in special then ['\\', s[0]] else [s[0]]) + BackslashEscaped(s[1..], special)
  }

  /** How many characters of `s` are in `special`. */
  function CountIn(s: string, special: set<char>): nat
  {
    if s == [] then 0 else (if s[0] in special then 1 else 0) + CountIn(s[1..], special)
  }

  /** The reading of escaped text by a consumer that drops a backslash in
      front of any character in `removable` and keeps everything else. */
  function Unescaped(t: string, removable: set<char>): string
    decreases |t|
  {
    if t == [] then []
    else if |t| >= 2 && t[0] == '\\' && t[1] in removable then [t[1]] + Unescaped(t[2..], removable)
    else [t[0]] + Unescaped(t[1..], removable)
  }

  /** Escaping distributes over concatenation: the loops may append the
      escape of one character at a time. */
  lemma {:induction false} BackslashEscapedAppend(a: string, b: string, special: set<char>)
    ensures BackslashEscaped(a + b, special) == BackslashEscaped(a, special) + BackslashEscaped(b, special)
  {
    if a == [] {
      assert a + b == b;
    } else {
      assert (a + b)[1..] == a[1..] + b;
      BackslashEscapedAppend(a[1..], b, special);
    }
  }

  /** The escape adds exactly one character per special character. */
  lemma {:induction false} BackslashEscapedLength(s: string, special: set<char>)
    ensures |BackslashEscaped(s, special)| == |s| + CountIn(s, special)
  {
    if s != [] {
      BackslashEscapedLength(s[1..], special);
    }
  }

  /** Text without special characters is left as it is, and only such text. */
  lemma {:induction false} BackslashEscapedIdentity(s: string, special: set<char>)
    ensures BackslashEscaped(s, special) == s <==> CountIn(s, special) == 0
  {
    BackslashEscapedLength(s, special);
    if s != [] && CountIn(s, special) == 0 {
      BackslashEscapedIdentity(s[1..], special);
    }
  }

  /** When the backslash is itself special and the consumer honours every
      escape the producer writes, reading the escaped text gives back the
      original. */
  lemma {:induction false} BackslashEscapedRoundTrip(s: string, special: set<char>, removable: set<char>)
    requires '\\' in special && special <= removable
    ensures Unescaped(BackslashEscaped(s, special), removable) == s
  {
    if s != [] {
      var rest := BackslashEscaped(s[1..], special);
      BackslashEscapedRoundTrip(s[1..], special, removable);
      if s[0] in special {
        assert (['\\', s[0]] + rest)[2..] == rest;
      } else {
        assert ([s[0]] + rest)[1..] == rest;
      }
    }
  }

  /** The escaping loop: start from the empty string and append, for each
      input character, a backslash if it is special and then the character. */
  method EscapeWith(s: string, special: set<char>) returns (t: string)
    ensures t == BackslashEscaped(s, special)
  {
    t := [];
    for i := 0 to |s|
      invariant t == BackslashEscaped(s[..i], special)
    {
      if s[i] in special {
        t := t + ['\\'];
      }
      t := t + [s[i]];
      assert s[..i + 1] == s[..i] + [s[i]];
      BackslashEscapedAppend(s[..i], [s[i]], special);
    }
    assert s[..|s|] == s;
  }
}
