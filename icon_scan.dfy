/**
 * The reference scanner of the preload-icon generator: turning the search
 * tool's standard output into cleaned match lines, and a match line into a
 * `prefix:name` icon reference.
 */
module IconScan {

  import opened Common

  /** Why a run of the generator aborts. */
  datatype GenError =
    | SearchFailed(status: Option<int>)      // the search tool exited with a status other than 1
    | MissingPackageDir(prefixWithPlus: string)
    | MissingIconSet(prefix: string)
    | EmptySubset(prefix: string)

  // ---------------------------------------------------------------------------
  // extractIcon: the first match of /([a-z0-9-]+:[a-z0-9-]+)/
  // ---------------------------------------------------------------------------

  /** The character class `[a-z0-9-]`. */
  predicate IsIconChar(c: char)
  {
    'a' <= c <= 'z' || '0' <= c <= '9' || c == '-'
  }

  /** `s[i..j]` matches the pattern, with its colon at `c`. */
  predicate MatchSpan(s: string, i: int, c: int, j: int)
  {
    0 <= i < c && c + 1 < j <= |s| && s[c] == ':' &&
    (forall t :: i <= t < c ==> IsIconChar(s[t])) &&
    (forall t :: c < t < j ==> IsIconChar(s[t]))
  }

  /**
   * `s[i..j]` is the match a backtracking regex engine reports: no match
   * starts further left, and none starting at `i` is longer.
   */
  ghost predicate FirstMatch(s: string, i: int, c: int, j: int)
  {
    MatchSpan(s, i, c, j) &&
    forall i', c', j' :: MatchSpan(s, i', c', j') ==> i < i' || (i == i' && j' <= j)
  }

  /** The end of the longest run of class characters starting at `i`. */
  function RunEnd(s: string, i: nat): (e: nat)
    requires i <= |s|
    ensures i <= e <= |s|
    ensures forall t :: i <= t < e ==> IsIconChar(s[t])
    ensures e == |s| || !IsIconChar(s[e])
    decreases |s| - i
  {
    if i == |s| || !IsIconChar(s[i]) then i else RunEnd(s, i + 1)
  }

  /** A run of class characters that stops at a non-class character (or the end) is the longest run. */
  lemma {:induction false} RunEndAt(s: string, i: nat, e: nat)
    requires i <= e <= |s|
    requires forall t :: i <= t < e ==> IsIconChar(s[t])
    requires e == |s| || !IsIconChar(s[e])
    ensures RunEnd(s, i) == e
    decreases e - i
  {
    if i < e {
      RunEndAt(s, i + 1, e);
    }
  }

  /** Every run of class characters from `i` ends no later than the longest one. */
  lemma {:induction false} RunEndCovers(s: string, i: nat, e: nat)
    requires i <= e <= |s|
    requires forall t :: i <= t < e ==> IsIconChar(s[t])
    ensures e <= RunEnd(s, i)
    decreases e - i
  {
    if i < e {
      RunEndCovers(s, i + 1, e);
    }
  }

  /** The colon of any match starting at `i` sits where the run from `i` ends. */
  lemma MatchColonIsRunEnd(s: string, i: nat, c: int, j: int)
    requires MatchSpan(s, i, c, j)
    ensures c == RunEnd(s, i)
    ensures j <= RunEnd(s, c + 1)
  {
    RunEndAt(s, i, c);
    RunEndCovers(s, c + 1, j);
  }

  /** The regex engine's search: try each start position from `from` on. */
  function FindFrom(s: string, from: nat): (r: Option<(nat, nat, nat)>)
    requires from <= |s|
    ensures r.Some? ==> from <= r.value.0 && MatchSpan(s, r.value.0, r.value.1, r.value.2)
    ensures r.Some? ==> forall i', c', j' :: MatchSpan(s, i', c', j') && from <= i' ==>
                          r.value.0 < i' || (r.value.0 == i' && j' <= r.value.2)
    ensures r.None? ==> forall i', c', j' :: MatchSpan(s, i', c', j') ==> i' < from
    decreases |s| - from
  {
    if from == |s| then
      None
    else if !IsIconChar(s[from]) then
      FindFrom(s, from + 1)
    else
      var c := RunEnd(s, from);
      if c + 1 < |s| && s[c] == ':' && IsIconChar(s[c + 1]) then
        var j := RunEnd(s, c + 1);
        assert forall i', c', j' :: MatchSpan(s, i', c', j') && i' == from ==> j' <= j by {
          forall i', c', j' | MatchSpan(s, i', c', j') && i' == from ensures j' <= j {
            MatchColonIsRunEnd(s, i', c', j');
          }
        }
        Some((from, c, j))
      else
        assert forall c', j' :: !MatchSpan(s, from, c', j') by {
          forall c', j' | MatchSpan(s, from, c', j') ensures false {
            MatchColonIsRunEnd(s, from, c', j');
          }
        }
        FindFrom(s, from + 1)
  }

  /**
   * extractIcon: the text of the first match of the icon pattern in `line`,
   * or None when the pattern matches nowhere in it.
   */
  function ExtractIcon(line: string): (r: Option<string>)
    ensures r.None? <==> forall i, c, j :: !MatchSpan(line, i, c, j)
    ensures r.Some? ==> exists i, c, j :: FirstMatch(line, i, c, j) && r.value == line[i..j]
    ensures r.Some? ==> IsIconName(r.value)
  {
    match FindFrom(line, 0)
    case None => None
    case Some((i, c, j)) =>
      assert FirstMatch(line, i, c, j);
      MatchIsIconName(line, i, c, j);
      Some(line[i..j])
  }

  // ---------------------------------------------------------------------------
  // `prefix:name` references and the two `split(':')` calls of the generator
  // ---------------------------------------------------------------------------

  /** The index of the first `ch` in `s`, or `|s|` when there is none. */
  function IndexOf(s: string, ch: char): (k: nat)
    ensures k <= |s|
    ensures k < |s| ==> s[k] == ch
    ensures forall t :: 0 <= t < k ==> s[t] != ch
    decreases |s|
  {
    if s == [] then 0
    else if s[0] == ch then 0
    else 1 + IndexOf(s[1..], ch)
  }

  /** Searching past a stretch without `ch` skips it. */
  lemma {:induction false} IndexOfAfter(a: string, b: string, ch: char)
    requires ch !in a
    ensures IndexOf(a + b, ch) == |a| + IndexOf(b, ch)
    decreases |a|
  {
    if a == [] {
      assert a + b == b;
    } else {
      assert (a + b)[0] == a[0];
      assert (a + b)[1..] == a[1..] + b;
      IndexOfAfter(a[1..], b, ch);
    }
  }

  /** A non-empty run of `[a-z0-9-]`. */
  predicate IsSegment(p: string)
  {
    |p| > 0 && forall t :: 0 <= t < |p| ==> IsIconChar(p[t])
  }

  /** A whole string of the form `[a-z0-9-]+:[a-z0-9-]+`. */
  predicate IsIconName(s: string)
  {
    var k := IndexOf(s, ':');
    0 < k && k + 1 < |s| &&
    forall t :: 0 <= t < |s| && t != k ==> IsIconChar(s[t])
  }

  lemma MatchIsIconName(s: string, i: int, c: int, j: int)
    requires MatchSpan(s, i, c, j)
    ensures IsIconName(s[i..j])
  {
    var m := s[i..j];
    assert m[c - i] == ':';
    assert forall t :: 0 <= t < c - i ==> m[t] != ':' by {
      forall t | 0 <= t < c - i ensures m[t] != ':' {
        assert IsIconChar(s[i + t]);
      }
    }
    assert IndexOf(m, ':') == c - i;
  }

  /** `icon.split(':', 1)[0]`: everything before the first colon. */
  function PrefixOf(icon: string): (r: string)
  {
    icon[..IndexOf(icon, ':')]
  }

  /**
   * The second element of `icon.split(':')`: the text between the first and
   * the second colon. For a string without a colon JavaScript gives
   * `undefined`; the keys the generator splits always hold a colon, and the
   * empty string stands in for that case here.
   */
  function NameOf(icon: string): (r: string)
  {
    var k := IndexOf(icon, ':');
    if k == |icon| then ""
    else
      var rest := icon[k + 1..];
      rest[..IndexOf(rest, ':')]
  }

  /**
   * What `split(':', 1)[0]` yields: the part of `icon` before its first colon,
   * which holds no colon and ends where the string or that colon does.
   */
  lemma PrefixOfSplit(icon: string)
    ensures StartsWith(icon, PrefixOf(icon)) && ':' !in PrefixOf(icon)
    ensures |PrefixOf(icon)| == |icon| || icon[|PrefixOf(icon)|] == ':'
  {
    var k := IndexOf(icon, ':');
    assert forall t :: 0 <= t < k ==> PrefixOf(icon)[t] == icon[t];
  }

  /**
   * What the second element of `split(':')` yields: the text after the first
   * colon up to the next colon or the end, which holds no colon.
   */
  lemma NameOfSplit(icon: string)
    ensures ':' !in NameOf(icon)
    ensures ':' !in icon ==> NameOf(icon) == ""
    ensures ':' in icon ==>
      var rest := icon[|PrefixOf(icon)| + 1..];
      StartsWith(rest, NameOf(icon)) && (|NameOf(icon)| == |rest| || rest[|NameOf(icon)|] == ':')
  {
    var k := IndexOf(icon, ':');
    if k < |icon| {
      var rest := icon[k + 1..];
      var m := IndexOf(rest, ':');
      assert forall t :: 0 <= t < m ==> NameOf(icon)[t] == rest[t];
    }
  }

  /** Splitting an icon name and joining the parts with a colon gives it back. */
  lemma SplitJoin(icon: string)
    requires IsIconName(icon)
    ensures IsSegment(PrefixOf(icon)) && IsSegment(NameOf(icon))
    ensures PrefixOf(icon) + ":" + NameOf(icon) == icon
  {
    var k := IndexOf(icon, ':');
    var rest := icon[k + 1..];
    assert forall t :: 0 <= t < |rest| ==> rest[t] == icon[k + 1 + t] && IsIconChar(icon[k + 1 + t]);
    assert IndexOf(rest, ':') == |rest|;
    assert icon == icon[..k] + [':'] + rest;
  }

  /** Joining two segments with a colon gives an icon name that splits back into them. */
  lemma JoinSplit(prefix: string, name: string)
    requires IsSegment(prefix) && IsSegment(name)
    ensures IsIconName(prefix + ":" + name)
    ensures PrefixOf(prefix + ":" + name) == prefix
    ensures NameOf(prefix + ":" + name) == name
  {
    var icon := prefix + ":" + name;
    assert icon[|prefix|] == ':';
    assert forall t :: 0 <= t < |prefix| ==> icon[t] == prefix[t] && icon[t] != ':';
    assert IndexOf(icon, ':') == |prefix|;
    assert icon[..|prefix|] == prefix;
    var rest := icon[|prefix| + 1..];
    assert rest == name;
    assert forall t :: 0 <= t < |name| ==> IsIconChar(name[t]) && name[t] != ':';
    assert IndexOf(rest, ':') == |name|;
    forall t | 0 <= t < |icon| && t != |prefix| ensures IsIconChar(icon[t]) {
      if t > |prefix| {
        assert icon[t] == name[t - |prefix| - 1];
      }
    }
  }

  // ---------------------------------------------------------------------------
  // The search tool's output: split(/\r?\n/).map(trim).filter(Boolean)
  // ---------------------------------------------------------------------------

  /** How one run of the search tool ended. */
  datatype SearchRun =
    | Exited(stdout: string)              // exit status 0
    | Failed(status: Option<int>)         // a non-zero status, or none when it could not start

  /** runRg: its output, the empty string when nothing matched (status 1), otherwise the failure. */
  function SearchOutput(run: SearchRun): (r: Result<string, GenError>)
    ensures r.Ok? <==> run.Exited? || run.status == Some(1)
    ensures r.Ok? && run.Failed? ==> r.value == ""
    ensures r.Ok? && run.Exited? ==> r.value == run.stdout
    ensures r.Err? ==> r.error == SearchFailed(run.status)
  {
    match run
    case Exited(out) => Ok(out)
    case Failed(status) => if status == Some(1) then Ok("") else Err(SearchFailed(status))
  }

  /**
   * `s.split(/\r?\n/)`: the pieces between line breaks, where a line break is
   * `\n` with an optional `\r` before it.
   */
  function SplitLines(s: string): (r: seq<string>)
    ensures |r| == CountOf(s, '\n') + 1
    ensures forall k :: 0 <= k < |r| ==> '\n' !in r[k]
    decreases |s|
  {
    var k := IndexOf(s, '\n');
    if k == |s| then
      assert '\n' !in s;
      NoneCounted(s, '\n');
      [s]
    else
      var line := if k > 0 && s[k - 1] == '\r' then s[..k - 1] else s[..k];
      assert '\n' !in line;
      CountSplit(s, k, '\n');
      [line] + SplitLines(s[k + 1..])
  }

  /** The number of occurrences of `ch` in `s`. */
  function CountOf(s: string, ch: char): nat
    decreases |s|
  {
    if s == [] then 0 else (if s[0] == ch then 1 else 0) + CountOf(s[1..], ch)
  }

  lemma {:induction false} NoneCounted(s: string, ch: char)
    requires ch !in s
    ensures CountOf(s, ch) == 0
    decreases |s|
  {
    if s != [] {
      assert ch !in s[1..];
      NoneCounted(s[1..], ch);
    }
  }

  lemma {:induction false} CountSplit(s: string, k: nat, ch: char)
    requires k < |s| && s[k] == ch && ch !in s[..k]
    ensures CountOf(s, ch) == 1 + CountOf(s[k + 1..], ch)
    decreases k
  {
    if k > 0 {
      assert s[1..][..k - 1] == s[1..k];
      assert ch !in s[1..][..k - 1];
      CountSplit(s[1..], k - 1, ch);
      assert s[1..][k..] == s[k + 1..];
    }
  }

  /** Text without a line break is one piece. */
  lemma SplitLinesNoBreak(s: string)
    requires '\n' !in s
    ensures SplitLines(s) == [s]
  {
    assert IndexOf(s, '\n') == |s|;
  }

  /** A `\r\n` break ends the first piece, and the `\r` is dropped with it. */
  lemma SplitLinesCrLf(a: string, b: string)
    requires '\n' !in a
    ensures SplitLines(a + "\r\n" + b) == [a] + SplitLines(b)
  {
    var s := a + "\r\n" + b;
    assert s == a + ("\r\n" + b);
    IndexOfAfter(a, "\r\n" + b, '\n');
    assert IndexOf("\r\n" + b, '\n') == 1 by {
      assert ("\r\n" + b)[1..] == "\n" + b;
    }
    assert s[|a|] == '\r';
    assert s[..|a|] == a;
    assert s[|a| + 2..] == b;
  }

  /** A bare `\n` break ends the first piece, which keeps all its characters. */
  lemma SplitLinesLf(a: string, b: string)
    requires '\n' !in a && (a == [] || a[|a| - 1] != '\r')
    ensures SplitLines(a + "\n" + b) == [a] + SplitLines(b)
  {
    var s := a + "\n" + b;
    assert s == a + ("\n" + b);
    IndexOfAfter(a, "\n" + b, '\n');
    assert s[..|a|] == a;
    assert s[|a| + 1..] == b;
  }

  /** The inverse of `SplitLines` on text without carriage returns. */
  function JoinLines(lines: seq<string>): string
  {
    if |lines| == 0 then "" else if |lines| == 1 then lines[0] else lines[0] + "\n" + JoinLines(lines[1..])
  }

  /** Splitting text that has no `\r` and joining the pieces with `\n` restores it. */
  lemma {:induction false} SplitLinesRoundTrip(s: string)
    requires '\r' !in s
    ensures JoinLines(SplitLines(s)) == s
    decreases |s|
  {
    var k := IndexOf(s, '\n');
    if k < |s| {
      var line, rest := s[..k], s[k + 1..];
      assert s == line + "\n" + rest;
      assert '\n' !in line && '\r' !in line && '\r' !in rest;
      SplitLinesLf(line, rest);
      SplitLinesRoundTrip(rest);
      var tail := SplitLines(rest);
      JoinLinesCons(line, tail);
      calc {
        JoinLines(SplitLines(s));
        JoinLines([line] + tail);
        line + "\n" + JoinLines(tail);
        line + "\n" + rest;
        s;
      }
    }
  }

  lemma JoinLinesCons(line: string, tail: seq<string>)
    requires |tail| >= 1
    ensures JoinLines([line] + tail) == line + "\n" + JoinLines(tail)
  {
    assert ([line] + tail)[1..] == tail;
  }

  /** The characters `String.prototype.trim` removes: white space and line terminators. */
  predicate IsJsWhitespace(c: char)
  {
    c == '\t' || c == '\n' || c == '\U{000B}' || c == '\U{000C}' || c == '\r' || c == ' ' ||
    c == '\U{00A0}' || c == '\U{1680}' || ('\U{2000}' <= c <= '\U{200A}') ||
    c == '\U{2028}' || c == '\U{2029}' || c == '\U{202F}' || c == '\U{205F}' ||
    c == '\U{3000}' || c == '\U{FEFF}'
  }

  /** The first index at or after `i` that does not hold white space, or `|s|`. */
  function SkipSpace(s: string, i: nat): (k: nat)
    requires i <= |s|
    ensures i <= k <= |s|
    ensures forall t :: i <= t < k ==> IsJsWhitespace(s[t])
    ensures k == |s| || !IsJsWhitespace(s[k])
    decreases |s| - i
  {
    if i < |s| && IsJsWhitespace(s[i]) then SkipSpace(s, i + 1) else i
  }

  /** Moving the end `j` back over white space, but not below `lo`. */
  function SkipSpaceBack(s: string, lo: nat, j: nat): (k: nat)
    requires lo <= j <= |s|
    ensures lo <= k <= j
    ensures forall t :: k <= t < j ==> IsJsWhitespace(s[t])
    ensures k == lo || !IsJsWhitespace(s[k - 1])
    decreases j - lo
  {
    if lo < j && IsJsWhitespace(s[j - 1]) then SkipSpaceBack(s, lo, j - 1) else j
  }

  /** `s.trim()`: white space cut off at both ends. */
  function Trim(s: string): (r: string)
    ensures |r| <= |s|
    ensures r == [] || (!IsJsWhitespace(r[0]) && !IsJsWhitespace(r[|r| - 1]))
  {
    var a := SkipSpace(s, 0);
    var b := SkipSpaceBack(s, a, |s|);
    s[a..b]
  }

  /**
   * What `trim` leaves is a slice of its input, and everything cut off on
   * either side of it is white space.
   */
  lemma TrimSlice(s: string)
    ensures var i := SkipSpace(s, 0);
      && i + |Trim(s)| <= |s|
      && Trim(s) == s[i..i + |Trim(s)|]
      && (forall t :: 0 <= t < i ==> IsJsWhitespace(s[t]))
      && (forall t :: i + |Trim(s)| <= t < |s| ==> IsJsWhitespace(s[t]))
  {
    var a := SkipSpace(s, 0);
    var b := SkipSpaceBack(s, a, |s|);
    assert Trim(s) == s[a..b] && a + |Trim(s)| == b;
  }

  /** `.map((s) => s.trim()).filter(Boolean)` */
  function TrimNonEmpty(lines: seq<string>): (r: seq<string>)
    ensures |r| <= |lines|
    ensures forall x :: x in r ==> x != [] && !IsJsWhitespace(x[0]) && !IsJsWhitespace(x[|x| - 1])
    decreases |lines|
  {
    if lines == [] then []
    else
      var t := Trim(lines[0]);
      var rest := TrimNonEmpty(lines[1..]);
      if t == [] then rest
      else
        assert forall x :: x in [t] + rest ==> x == t || x in rest;
        [t] + rest
  }

  /** A line is kept exactly when it is the non-empty trim of some input line. */
  lemma {:induction false} TrimNonEmptyMembers(lines: seq<string>, x: string)
    ensures x in TrimNonEmpty(lines) <==> x != [] && exists l :: l in lines && Trim(l) == x
    decreases |lines|
  {
    if lines != [] {
      TrimNonEmptyMembers(lines[1..], x);
      assert forall l :: l in lines <==> l == lines[0] || l in lines[1..];
    }
  }

  /**
   * `.map((s) => s.trim()).filter(Boolean)` keeps every line, in order and
   * with its repeats: over a concatenation it is the concatenation of the two
   * cleaned parts.
   */
  lemma {:induction false} TrimNonEmptyAppend(a: seq<string>, b: seq<string>)
    ensures TrimNonEmpty(a + b) == TrimNonEmpty(a) + TrimNonEmpty(b)
    decreases |a|
  {
    if a == [] {
      assert a + b == b;
    } else {
      assert (a + b)[0] == a[0];
      assert (a + b)[1..] == a[1..] + b;
      TrimNonEmptyAppend(a[1..], b);
    }
  }

  /** One line is kept, trimmed, exactly when its trim is not empty. */
  lemma TrimNonEmptySingle(line: string)
    ensures Trim(line) == [] ==> TrimNonEmpty([line]) == []
    ensures Trim(line) != [] ==> TrimNonEmpty([line]) == [Trim(line)]
  {
    assert [line][1..] == [];
  }

  /**
   * The cleaned match lines of one search: every line break split off, each
   * line trimmed, empty lines dropped. At most one line per line break plus
   * one, and none empty or holding a line break.
   */
  function MatchLines(stdout: string): (r: seq<string>)
    ensures |r| <= CountOf(stdout, '\n') + 1
    ensures forall x :: x in r ==> x != [] && '\n' !in x
  {
    var pieces := SplitLines(stdout);
    var r := TrimNonEmpty(pieces);
    forall x | x in r ensures '\n' !in x {
      TrimNonEmptyMembers(pieces, x);
      var l :| l in pieces && Trim(l) == x;
      TrimKeepsAbsent(l, '\n');
    }
    r
  }

  /** Trimming cuts characters off and adds none. */
  lemma TrimKeepsAbsent(l: string, ch: char)
    requires ch !in l
    ensures ch !in Trim(l)
  {
    var a := SkipSpace(l, 0);
    var b := SkipSpaceBack(l, a, |l|);
    assert forall t :: 0 <= t < b - a ==> Trim(l)[t] == l[a + t];
  }

  /**
   * rawMatches: the cleaned lines of the config-pattern search followed by
   * those of the factory-call search; the config search runs first, so its
   * failure is the one reported when both fail.
   */
  function RawMatches(configRun: SearchRun, factoryRun: SearchRun): (r: Result<seq<string>, GenError>)
    ensures r.Ok? <==> SearchOutput(configRun).Ok? && SearchOutput(factoryRun).Ok?
    ensures SearchOutput(configRun).Err? ==> r == Err(SearchOutput(configRun).error)
    ensures SearchOutput(configRun).Ok? && SearchOutput(factoryRun).Err? ==> r == Err(SearchOutput(factoryRun).error)
    ensures r.Ok? ==>
      var config := MatchLines(SearchOutput(configRun).value);
      var factory := MatchLines(SearchOutput(factoryRun).value);
      |r.value| == |config| + |factory| &&
      r.value[..|config|] == config && r.value[|config|..] == factory
  {
    match SearchOutput(configRun)
    case Err(e) => Err(e)
    case Ok(configOut) =>
      match SearchOutput(factoryRun)
      case Err(e) => Err(e)
      case Ok(factoryOut) => Ok(MatchLines(configOut) + MatchLines(factoryOut))
  }
}
