/**
  String values in the configuration file: written with escapes, read back by
  editing the line buffer in place.
 */
module KconfigStrings {
  import opened Options

  const NUL := '\0'
  const LINE_SIZE := 1024

  predicate Special(c: char) {
    c == '"' || c == '\\'
  }

  /** Every quote and backslash is preceded by a backslash. */
  function Escape(s: string): string {
    if s == "" then ""
    else if Special(s[0]) then ['\\', s[0]] + Escape(s[1..])
    else [s[0]] + Escape(s[1..])
  }

  /** The text before the closing quote; None without one. */
  function Decode(c: string): Option<string> {
    if c == "" then None
    else if c[0] == '"' then Some("")
    else if c[0] == '\\' then
      if |c| == 1 then None else Prepend([c[1]], Decode(c[2..]))
    else Prepend([c[0]], Decode(c[1..]))
  }

  function Prepend(s: string, r: Option<string>): Option<string> {
    if r.Some? then Some(s + r.value) else None
  }

  lemma DecodeEscaped(x: char, tail: string)
    ensures Decode(['\\', x] + tail) == Prepend([x], Decode(tail))
  {
  }

  lemma DecodePlain(x: char, tail: string)
    requires !Special(x)
    ensures Decode([x] + tail) == Prepend([x], Decode(tail))
  {
  }

  lemma PrependTwice(s: string, t: string, r: Option<string>)
    ensures Prepend(s + t, r) == Prepend(s, Prepend(t, r))
  {
    if r.Some? {
      assert s + t + r.value == s + (t + r.value);
    }
  }

  /** What is written is read back, whatever follows the closing quote. */
  lemma {:induction false} RoundTrip(s: string, w: string)
    requires w != "" && w[0] == '"'
    ensures Decode(Escape(s) + w) == Some(s)
  {
    if s == "" {
      assert Escape(s) + w == w;
    } else {
      RoundTrip(s[1..], w);
      RoundTripStep(s[0], s[1..], Escape(s[1..]), w);
      assert s == [s[0]] + s[1..];
    }
  }

  lemma RoundTripStep(x: char, s: string, e: string, w: string)
    requires Decode(e + w) == Some(s)
    ensures var e' := if Special(x) then ['\\', x] + e else [x] + e;
      Decode(e' + w) == Some([x] + s)
  {
    if Special(x) {
      DecodeEscaped(x, e + w);
      assert ['\\', x] + e + w == ['\\', x] + (e + w);
    } else {
      DecodePlain(x, e + w);
      assert [x] + e + w == [x] + (e + w);
    }
  }

  /** Different strings are written differently. */
  lemma EscapeIsInjective(s: string, t: string)
    requires Escape(s) == Escape(t)
    ensures s == t
  {
    RoundTrip(s, "\"");
    RoundTrip(t, "\"");
  }

  /** Quotes and backslashes take one character more, and nothing else does. */
  lemma {:induction false} EscapeLength(s: string)
    ensures |Escape(s)| == |s| + multiset(s)['"'] + multiset(s)['\\']
  {
    if s != [] {
      EscapeLength(s[1..]);
      assert s == [s[0]] + s[1..];
    }
  }

  lemma {:induction false} EscapeAppend(s: string, t: string)
    ensures Escape(s + t) == Escape(s) + Escape(t)
  {
    if s == "" {
      assert s + t == t;
    } else {
      assert (s + t)[1..] == s[1..] + t;
      EscapeAppend(s[1..], t);
    }
  }

  lemma {:induction false} EscapePlain(s: string)
    requires forall i :: 0 <= i < |s| ==> !Special(s[i])
    ensures Escape(s) == s
  {
    if s != "" {
      EscapePlain(s[1..]);
    }
  }

  /** The loop of conf_write: stretches without special characters, with an escape in between. */
  method WriteString(str: string) returns (out: string)
    ensures out == Escape(str)
  {
    out := "";
    var p := 0;
    while true
      invariant 0 <= p <= |str| && out == Escape(str[..p])
      decreases |str| - p
    {
      var l := 0;
      while p + l < |str| && !Special(str[p + l])
        invariant 0 <= l <= |str| - p
        invariant forall i :: p <= i < p + l ==> !Special(str[i])
      {
        l := l + 1;
      }
      WroteStretch(str, p, l);
      out := out + str[p..p + l];
      p := p + l;
      if p == |str| {
        assert str[..p] == str;
        return;
      }
      WroteEscape(str, p);
      out := out + ['\\', str[p]];
      p := p + 1;
    }
  }

  lemma WroteStretch(str: string, p: nat, l: nat)
    requires p + l <= |str| && forall i :: p <= i < p + l ==> !Special(str[i])
    ensures Escape(str[..p + l]) == Escape(str[..p]) + str[p..p + l]
  {
    EscapePlain(str[p..p + l]);
    EscapeAppend(str[..p], str[p..p + l]);
    assert str[..p] + str[p..p + l] == str[..p + l];
  }

  lemma WroteEscape(str: string, p: nat)
    requires p < |str| && Special(str[p])
    ensures Escape(str[..p + 1]) == Escape(str[..p]) + ['\\', str[p]]
  {
    EscapeAppend(str[..p], [str[p]]);
    assert str[..p] + [str[p]] == str[..p + 1];
    assert Escape([str[p]]) == ['\\', str[p]] + Escape([str[p]][1..]);
  }

  /** The buffer has the text c from p on. */
  predicate Has(buf: array<char>, p: nat, c: string)
    reads buf
  {
    p + |c| <= buf.Length && forall i {:trigger c[i]} :: 0 <= i < |c| ==> buf[p + i] == c[i] && c[i] != NUL
  }

  /** The buffer holds the C string c from p on. */
  predicate Holds(buf: array<char>, p: nat, c: string)
    reads buf
  {
    p + |c| < buf.Length && Has(buf, p, c) && buf[p + |c|] == NUL
  }

  /**
    The loop of conf_set_sym_val: strpbrk, and memmove over each backslash.  When
    a backslash is the last character, the next look is at the terminator, which
    the move leaves where it was.
   */
  method UnescapeInPlace(buf: array<char>, p: nat, ghost c: string) returns (ok: bool)
    requires Holds(buf, p, c)
    modifies buf
    ensures ok <==> Decode(c).Some?
    ensures ok ==> Holds(buf, p, Decode(c).value)
  {
    var q := p;
    ghost var done, left, over := "", c, false;
    PrependEmpty(Decode(c));
    while true
      invariant !over ==>
        q == p + |done| && Holds(buf, q, left) && Has(buf, p, done) && Decode(c) == Prepend(done, Decode(left))
      invariant over ==> p <= q < buf.Length && buf[q] == NUL && Decode(c).None?
      decreases !over, |left|
    {
      assert !over && left != "" ==> buf[q] == left[0] != NUL;
      if buf[q] == NUL {
        return false;
      }
      if buf[q] == '"' {
        assert Decode(left) == Some("") && done + "" == done;
        buf[q] := NUL;
        return true;
      }
      if buf[q] == '\\' {
        over := |left| == 1;
        if !over {
          AdvanceEscaped(c, done, left);
        }
        DropFirst(buf, q, left);
        left := left[1..];
      } else {
        AdvancePlain(c, done, left);
      }
      q := q + 1;
      if !over {
        done, left := done + [left[0]], left[1..];
      }
    }
  }

  lemma AdvancePlain(c: string, done: string, left: string)
    requires Decode(c) == Prepend(done, Decode(left)) && left != "" && !Special(left[0])
    ensures Decode(c) == Prepend(done + [left[0]], Decode(left[1..]))
  {
    assert left == [left[0]] + left[1..];
    DecodePlain(left[0], left[1..]);
    PrependTwice(done, [left[0]], Decode(left[1..]));
  }

  lemma AdvanceEscaped(c: string, done: string, left: string)
    requires Decode(c) == Prepend(done, Decode(left)) && |left| > 1 && left[0] == '\\'
    ensures Decode(c) == Prepend(done + [left[1..][0]], Decode(left[1..][1..]))
  {
    assert left == ['\\', left[1]] + left[2..] && left[1..][1..] == left[2..];
    DecodeEscaped(left[1], left[2..]);
    PrependTwice(done, [left[1]], Decode(left[2..]));
  }

  lemma PrependEmpty(r: Option<string>)
    ensures Prepend("", r) == r
  {
    if r.Some? {
      assert "" + r.value == r.value;
    }
  }

  /** memmove(p, p + 1, strlen(p)). */
  method DropFirst(buf: array<char>, q: nat, ghost c: string)
    requires Holds(buf, q, c) && c != ""
    modifies buf
    ensures Holds(buf, q, c[1..]) && buf[q + |c|] == NUL && forall i :: 0 <= i < q ==> buf[i] == old(buf[i])
  {
    var n := Strlen(buf, q, c);
    var i := 0;
    while i < n
      invariant 0 <= i <= n
      invariant forall k :: 0 <= k < q ==> buf[k] == old(buf[k])
      invariant forall k :: 1 <= k <= i && k < n ==> buf[q + k - 1] == c[k]
      invariant i == n ==> buf[q + n - 1] == NUL
      invariant forall k :: q + i <= k <= q + n ==> buf[k] == old(buf[k])
    {
      buf[q + i] := buf[q + i + 1];
      i := i + 1;
    }
  }

  method Strlen(buf: array<char>, q: nat, ghost c: string) returns (n: nat)
    requires Holds(buf, q, c)
    ensures n == |c|
  {
    n := 0;
    while buf[q + n] != NUL
      invariant 0 <= n <= |c|
      invariant n < |c| ==> buf[q + n] == c[n] != NUL
      decreases |c| - n
    {
      n := n + 1;
    }
  }

  // ---------------------------------------------------------------------
  // Whole lines

  /** The first place of x from i on, or the length. */
  function Find(s: string, i: nat, x: char): (k: nat)
    requires i <= |s|
    ensures i <= k <= |s| && (k < |s| ==> s[k] == x)
    ensures x !in s[i..k]
    decreases |s| - i
  {
    if i == |s| || s[i] == x then i else
    var k := Find(s, i + 1, x);
    assert s[i..k] == [s[i]] + s[i + 1..k];
    k
  }

  const PREFIX := "CONFIG_"

  /** The line that conf_write writes for a string symbol. */
  function Line(name: string, s: string): string {
    PREFIX + name + "=\"" + Escape(s) + "\"\n"
  }

  /** The part of the line after the equals sign, without the line end. */
  function Assigned(line: string): string
    requires |line| >= 7
  {
    var e := Find(line, 7, '=');
    if e == |line| then "" else
    var n := Find(line, e + 1, '\n');
    if n < |line| && n > e + 1 && line[n - 1] == '\r' then line[e + 1..n - 1] else line[e + 1..n]
  }

  /** The string that a line assigns. */
  function Parse(line: string): Option<string>
    requires |line| >= 7
  {
    var v := Assigned(line);
    if v == "" || v[0] != '"' then None else Decode(v[1..])
  }

  lemma {:induction false} EscapeHasNo(s: string, x: char)
    requires x !in s && !Special(x)
    ensures x !in Escape(s)
  {
    if s != "" {
      EscapeHasNo(s[1..], x);
    }
  }

  lemma {:induction false} FindAt(s: string, i: nat, k: nat, x: char)
    requires i <= k < |s| && s[k] == x && x !in s[i..k]
    ensures Find(s, i, x) == k
    decreases k - i
  {
  }

  /** A string without line ends comes back from its line. */
  lemma LineRoundTrip(name: string, s: string)
    requires '=' !in name && '\n' !in name && '\n' !in s
    ensures Parse(Line(name, s)) == Some(s)
  {
    var line, e := Line(name, s), 7 + |name|;
    var body := Escape(s) + "\"";
    assert line == PREFIX + name + ("=\"" + Escape(s) + "\"\n");
    assert line[7..e] == name && line[e] == '=';
    FindAt(line, 7, e, '=');
    var n := e + 2 + |body|;
    assert line[e + 1..n] == "\"" + body && line[n] == '\n';
    EscapeHasNo(s, '\n');
    FindAt(line, e + 1, n, '\n');
    assert line[n - 1] == '"';
    assert Assigned(line) == "\"" + body && ("\"" + body)[1..] == body;
    RoundTrip(s, "\"");
  }

  /** The line in its buffer, ended at end. */
  method LineBuffer(line: string, p: nat, end: nat) returns (buf: array<char>)
    requires p <= end <= |line| < LINE_SIZE && NUL !in line
    ensures fresh(buf) && Holds(buf, p, line[p..end])
  {
    buf := new char[LINE_SIZE](i => if 0 <= i < end then line[i] else NUL);
    assert forall i :: 0 <= i < end - p ==> line[p..end][i] == line[p + i] && line[p + i] in line;
  }

  /** One assignment of conf_read_simple and conf_set_sym_val, for a line as fgets delivers it. */
  method ReadString(line: string) returns (v: Option<string>)
    requires PREFIX <= line && |line| < LINE_SIZE && NUL !in line
    ensures v == Parse(line)
  {
    var e := Find(line, 7, '=');
    if e == |line| {
      return None;
    }
    var n := Find(line, e + 1, '\n');
    var end := if n < |line| && n > e + 1 && line[n - 1] == '\r' then n - 1 else n;
    if end == e + 1 || line[e + 1] != '"' {
      assert Assigned(line) == line[e + 1..end];
      return None;
    }
    assert Assigned(line)[1..] == line[e + 2..end] && Assigned(line)[0] == '"';
    v := ReadQuoted(line, e + 2, end);
  }

  /** conf_set_sym_val on the text between p and end, after the opening quote. */
  method ReadQuoted(line: string, p: nat, end: nat) returns (v: Option<string>)
    requires p <= end <= |line| < LINE_SIZE && NUL !in line
    ensures v == Decode(line[p..end])
  {
    ghost var text := line[p..end];
    var buf := LineBuffer(line, p, end);
    var ok := UnescapeInPlace(buf, p, text);
    if !ok {
      return None;
    }
    var l := Strlen(buf, p, Decode(text).value);
    v := Some(buf[p..p + l]);
    assert v.value == Decode(text).value;
  }

  /** Writing a string and reading its line in the line buffer gives the string back. */
  method WriteAndRead(name: string, str: string) returns (v: Option<string>)
    requires '=' !in name && '\n' !in name && NUL !in name && '\n' !in str && NUL !in str
    requires |PREFIX| + |name| + |Escape(str)| + 4 < LINE_SIZE
    ensures v == Some(str)
  {
    var escaped := WriteString(str);
    var line := PREFIX + name + "=\"" + escaped + "\"\n";
    EscapeHasNo(str, NUL);
    LineRoundTrip(name, str);
    v := ReadString(line);
  }
}
