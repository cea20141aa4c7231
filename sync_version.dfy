/**
 * `updateTomlVersion` of scripts/sync-version.mjs: split a Cargo.toml text
 * into lines, walk them with an `inPackage` flag, rewrite the first
 * `version = "..."` line of the `[package]` section, and join the lines
 * again with LF, ending with a newline.
 */
module SyncVersion {
  import opened Seqs
  import opened JsText

  // ---------------------------------------------------------------------------
  // Splitting on /\r?\n/ and joining with "\n"

  /** Position of the first LF, or |s| when there is none. */
  function FirstLf(s: string): (k: nat)
    ensures k <= |s|
    ensures k < |s| ==> s[k] == '\n'
    ensures forall j :: 0 <= j < k ==> s[j] != '\n'
  {
    if |s| == 0 || s[0] == '\n' then 0 else 1 + FirstLf(s[1..])
  }

  /** A piece before an LF loses the CR of a CRLF. */
  function StripCr(p: string): string
  {
    if |p| > 0 && p[|p| - 1] == '\r' then p[..|p| - 1] else p
  }

  /** `s.split(/\r?\n/)`. */
  function SplitLines(s: string): (ls: seq<string>)
    ensures |ls| >= 1
    decreases |s|
  {
    var k := FirstLf(s);
    if k == |s| then [s] else [StripCr(s[..k])] + SplitLines(s[k + 1..])
  }

  /** `lines.join(sep)`. */
  function JoinWith(ls: seq<string>, sep: string): string
  {
    if |ls| == 0 then "" else if |ls| == 1 then ls[0] else ls[0] + sep + JoinWith(ls[1..], sep)
  }

  function Join(ls: seq<string>): string
  {
    JoinWith(ls, "\n")
  }

  predicate NoLf(s: string)
  {
    forall i :: 0 <= i < |s| ==> s[i] != '\n'
  }

  predicate NoCr(s: string)
  {
    forall i :: 0 <= i < |s| ==> s[i] != '\r'
  }

  /** Lines that survive a split and a join unchanged: no LF inside, no CR at the end. */
  predicate CleanLine(l: string)
  {
    NoLf(l) && (|l| == 0 || l[|l| - 1] != '\r')
  }

  /** Splitting the LF- or CRLF-joined clean lines gives those lines back: a
      CRLF file and its LF twin split into the same lines. */
  lemma {:induction false} SplitJoin(ls: seq<string>, sep: string)
    requires |ls| >= 1 && (sep == "\n" || sep == "\r\n")
    requires forall i :: 0 <= i < |ls| ==> CleanLine(ls[i])
    ensures SplitLines(JoinWith(ls, sep)) == ls
    decreases |ls|
  {
    if |ls| == 1 {
      assert FirstLf(ls[0]) == |ls[0]|;
    } else {
      SplitStep(ls[0], sep, JoinWith(ls[1..], sep));
      SplitJoin(ls[1..], sep);
      assert ls == [ls[0]] + ls[1..];
    }
  }

  /** A clean line and a separator in front of a text split off as that line. */
  lemma {:induction false} SplitStep(l: string, sep: string, rest: string)
    requires CleanLine(l) && (sep == "\n" || sep == "\r\n")
    ensures SplitLines(l + sep + rest) == [l] + SplitLines(rest)
  {
    var s := l + sep + rest;
    var k := |l| + |sep| - 1;
    assert FirstLf(s) == k by {
      assert s[k] == '\n';
      assert forall j :: 0 <= j < k ==> s[j] != '\n';
      FirstLfAt(s, k);
    }
    assert s[k + 1..] == rest;
    assert StripCr(s[..k]) == l by {
      if sep == "\n" {
        assert s[..k] == l;
      } else {
        assert s[..k] == l + "\r";
        assert StripCr(l + "\r") == l;
      }
    }
  }

  lemma {:induction false} FirstLfAt(s: string, k: nat)
    requires k < |s| && s[k] == '\n'
    requires forall j :: 0 <= j < k ==> s[j] != '\n'
    ensures FirstLf(s) == k
  {
  }

  /** Joining the lines of a text without CRs gives the text back. */
  lemma {:induction false} JoinSplit(s: string)
    requires NoCr(s)
    ensures Join(SplitLines(s)) == s
    decreases |s|
  {
    var k := FirstLf(s);
    if k < |s| {
      var tail := s[k + 1..];
      JoinSplit(tail);
      assert StripCr(s[..k]) == s[..k];
      assert s == s[..k] + "\n" + tail;
    }
  }

  /** Every line of a split is free of LFs, and of CRs when the text is. */
  lemma {:induction false} SplitClean(s: string)
    ensures forall i :: 0 <= i < |SplitLines(s)| ==> NoLf(SplitLines(s)[i])
    ensures NoCr(s) ==> forall i :: 0 <= i < |SplitLines(s)| ==> NoCr(SplitLines(s)[i])
    decreases |s|
  {
    var k := FirstLf(s);
    if k < |s| {
      SplitClean(s[k + 1..]);
      var ls := SplitLines(s);
      assert ls == [StripCr(s[..k])] + SplitLines(s[k + 1..]);
    }
  }

  /** A text ending in LF splits into at least two lines, the last one empty. */
  lemma {:induction false} SplitEndsEmpty(s: string)
    requires |s| > 0 && s[|s| - 1] == '\n'
    ensures |SplitLines(s)| >= 2 && SplitLines(s)[|SplitLines(s)| - 1] == ""
    decreases |s|
  {
    var k := FirstLf(s);
    assert k < |s|;
    var tail := s[k + 1..];
    var rest := SplitLines(tail);
    assert |rest| >= 1 && rest[|rest| - 1] == "" by {
      if |tail| > 0 {
        assert tail[|tail| - 1] == '\n';
        SplitEndsEmpty(tail);
      } else {
        assert FirstLf(tail) == 0;
      }
    }
    var ls := SplitLines(s);
    assert ls == [StripCr(s[..k])] + rest;
    assert ls[|ls| - 1] == rest[|rest| - 1];
  }

  /** A join of at least two lines whose last is empty ends in LF. */
  lemma {:induction false} JoinEndsLf(ls: seq<string>)
    requires |ls| >= 2 && ls[|ls| - 1] == ""
    ensures |Join(ls)| > 0 && Join(ls)[|Join(ls)| - 1] == '\n'
    decreases |ls|
  {
    if |ls| > 2 {
      JoinEndsLf(ls[1..]);
    } else {
      assert ls[1..] == [""];
      assert JoinWith(ls[1..], "\n") == "";
    }
  }

  /** Joining one more line appends the separator and the line. */
  lemma {:induction false} JoinSnoc(ls: seq<string>, l: string)
    requires |ls| >= 1
    ensures Join(ls + [l]) == Join(ls) + "\n" + l
    decreases |ls|
  {
    if |ls| == 1 {
      assert (ls + [l])[1..] == [l];
      assert Join(ls + [l]) == ls[0] + "\n" + Join([l]);
    } else {
      assert (ls + [l])[1..] == ls[1..] + [l];
      JoinSnoc(ls[1..], l);
    }
  }

  // ---------------------------------------------------------------------------
  // The three line patterns and the rewrite

  /** `/^\s*\[package\]\s*$/`. */
  predicate IsPackageHeader(line: string)
  {
    Trim(line) == "[package]"
  }

  /** `/^\s*\[.+\]\s*$/`: a bracket pair around at least one character that
      is not a line terminator, with only whitespace around. */
  predicate IsSectionHeader(line: string)
  {
    var t := Trim(line);
    |t| >= 3 && t[0] == '[' && t[|t| - 1] == ']' && NoLineTerminator(t[1..|t| - 1])
  }

  /** The part of a version line after `version`: `\s*=\s*".*"`. */
  predicate IsAssignment(r: string)
  {
    var r1 := TrimStart(r);
    |r1| >= 1 && r1[0] == '=' &&
    var r2 := TrimStart(r1[1..]);
    |r2| >= 2 && r2[0] == '"' && r2[|r2| - 1] == '"' && NoLineTerminator(r2[1..|r2| - 1])
  }

  /** `/^\s*version\s*=\s*".*"\s*$/`. */
  predicate IsVersionLine(line: string)
  {
    var t := Trim(line);
    |t| >= 7 && t[..7] == "version" && IsAssignment(t[7..])
  }

  lemma {:induction false} PackageHeaderIsSection(line: string)
    ensures IsPackageHeader(line) ==> IsSectionHeader(line)
  {
    if IsPackageHeader(line) {
      PackageIsBracketed("[package]");
    }
  }

  lemma {:induction false} PackageIsBracketed(t: string)
    requires t == "[package]"
    ensures |t| >= 3 && t[0] == '[' && t[|t| - 1] == ']' && NoLineTerminator(t[1..|t| - 1])
  {
    assert t[1..|t| - 1] == "package";
  }

  /** A version line is not a section header. */
  lemma {:induction false} VersionLineNotHeader(line: string)
    ensures IsVersionLine(line) ==> !IsSectionHeader(line) && !IsPackageHeader(line)
  {
    var t := Trim(line);
    if |t| >= 7 && t[..7] == "version" {
      assert t[0] == 'v';
    }
  }

  /** The replacement string of `String.prototype.replace`: `$$`, `$&`,
      `` $` `` and `$'` are expanded; the pattern has no groups, so `$n` and
      `$<` stay as written. */
  function Expand(r: string, matched: string, before: string, after: string): string
  {
    if |r| == 0 then ""
    else if r[0] == '$' && |r| >= 2 && r[1] == '$' then "$" + Expand(r[2..], matched, before, after)
    else if r[0] == '$' && |r| >= 2 && r[1] == '&' then matched + Expand(r[2..], matched, before, after)
    else if r[0] == '$' && |r| >= 2 && r[1] == '`' then before + Expand(r[2..], matched, before, after)
    else if r[0] == '$' && |r| >= 2 && r[1] == '\'' then after + Expand(r[2..], matched, before, after)
    else [r[0]] + Expand(r[1..], matched, before, after)
  }

  /** Without `$` the replacement is taken literally. */
  lemma {:induction false} ExpandLiteral(r: string, matched: string, before: string, after: string)
    requires forall i :: 0 <= i < |r| ==> r[i] != '$'
    ensures Expand(r, matched, before, after) == r
  {
    if |r| > 0 {
      ExpandLiteral(r[1..], matched, before, after);
    }
  }

  /** `version = "${newVersion}"`. */
  function Assignment(v: string): string
  {
    "version" + (" = \"" + v + "\"")
  }

  /** The whitespace in front of the trimmed line. */
  function Lead(line: string): string
  {
    line[..|line| - |TrimStart(line)|]
  }

  /** The whitespace behind the trimmed line. */
  function Trail(line: string): string
  {
    var ts := TrimStart(line);
    ts[|TrimEnd(ts)|..]
  }

  /** A line is its leading whitespace, its trimmed text and its trailing
      whitespace. */
  lemma {:induction false} LineParts(line: string)
    ensures line == Lead(line) + Trim(line) + Trail(line)
    ensures AllSpace(Lead(line)) && AllSpace(Trail(line))
  {
    var ts := TrimStart(line);
    var r := TrimEnd(ts);
    LeadThenRest(line);
    BodyThenTrail(ts);
    assert Trim(line) == r && Trail(line) == ts[|r|..];
    AppendAssoc(Lead(line), r, ts[|r|..]);
  }

  lemma {:induction false} LeadThenRest(line: string)
    ensures line == Lead(line) + TrimStart(line) && AllSpace(Lead(line))
  {
    TrimStartSpace(line);
  }

  lemma {:induction false} BodyThenTrail(ts: string)
    ensures ts == TrimEnd(ts) + ts[|TrimEnd(ts)|..] && AllSpace(ts[|TrimEnd(ts)|..])
  {
    TrimEndSpace(ts);
  }

  /** Whitespace around a text without whitespace at its ends is what `trim`
      removes. */
  lemma {:induction false} TrimAround(b: string, t: string, c: string)
    requires AllSpace(b) && AllSpace(c)
    requires |t| > 0 && !IsJsSpace(t[0]) && !IsJsSpace(t[|t| - 1])
    ensures Trim(b + t + c) == t && Lead(b + t + c) == b && Trail(b + t + c) == c
  {
    var l := b + t + c;
    assert l == b + (t + c);
    TrimStartFrame(b, t + c);
    TrimEndFrame(t, c);
    assert l[..|l| - |t + c|] == b;
    assert (t + c)[|t|..] == c;
  }

  /** `line.replace(/version\s*=\s*".*"/, ...)` on a version line: the
      leftmost match starts after the leading whitespace and, `.*` being
      greedy, ends at the last quote, so it is the trimmed line; the leading
      and trailing whitespace stay. */
  function Rewrite(line: string, v: string): string
  {
    var before, after := Lead(line), Trail(line);
    before + Expand(Assignment(v), Trim(line), before, after) + after
  }

  /** A version string without `$` or line terminators. */
  predicate PlainVersion(v: string)
  {
    forall i :: 0 <= i < |v| ==> v[i] != '$' && !IsLineTerminator(v[i])
  }

  /** With a plain version, the replacement is the assignment itself. */
  lemma {:induction false} RewriteShape(line: string, v: string)
    requires PlainVersion(v)
    ensures Rewrite(line, v) == Lead(line) + Assignment(v) + Trail(line)
  {
    ExpandLiteral(Assignment(v), Trim(line), Lead(line), Trail(line));
  }

  /** The assignment written for a plain version is itself a version line. */
  lemma {:induction false} AssignmentIsVersionLine(v: string)
    requires PlainVersion(v)
    ensures Trim(Assignment(v)) == Assignment(v) && IsVersionLine(Assignment(v))
  {
    var a := Assignment(v);
    assert Trim(a) == a by {
      TrimAround("", a, "");
      assert "" + a + "" == a;
    }
    var rest := " = \"" + v + "\"";
    assert a[..7] == "version" && a[7..] == rest;
    assert IsAssignment(rest) by {
      QuotedValue(v);
    }
  }

  /** ` = "v"` is what a version line has after `version`. */
  lemma {:induction false} QuotedValue(v: string)
    requires PlainVersion(v)
    ensures IsAssignment(" = \"" + v + "\"")
  {
    var q := "\"" + v + "\"";
    SpaceBefore("=" + (" " + q));
    assert " = \"" + v + "\"" == " " + ("=" + (" " + q));
    assert ("=" + (" " + q))[1..] == " " + q;
    SpaceBefore(q);
    Quoted(v);
  }

  lemma {:induction false} SpaceBefore(s: string)
    requires |s| > 0 && !IsJsSpace(s[0])
    ensures TrimStart(" " + s) == s
  {
    TrimStartFrame(" ", s);
  }

  lemma {:induction false} Quoted(v: string)
    requires PlainVersion(v)
    ensures var q := "\"" + v + "\"";
      |q| >= 2 && q[0] == '"' && q[|q| - 1] == '"' && NoLineTerminator(q[1..|q| - 1])
  {
    var q := "\"" + v + "\"";
    assert q[1..|q| - 1] == v;
  }

  /** The rewritten line keeps the whitespace around the old text, and its
      text is the new assignment. */
  lemma {:induction false} RewriteParts(line: string, v: string)
    requires PlainVersion(v)
    ensures var l' := Rewrite(line, v);
      Trim(l') == Assignment(v) && Lead(l') == Lead(line) && Trail(l') == Trail(line)
  {
    RewriteShape(line, v);
    LineParts(line);
    AssignmentIsVersionLine(v);
    TrimAround(Lead(line), Assignment(v), Trail(line));
  }

  /** The rewritten line is a version line. */
  lemma {:induction false} RewriteIsVersionLine(line: string, v: string)
    requires PlainVersion(v)
    ensures IsVersionLine(Rewrite(line, v))
  {
    RewriteParts(line, v);
    AssignmentIsVersionLine(v);
  }

  /** Rewriting a rewritten line changes nothing. */
  lemma {:induction false} RewriteIdempotent(line: string, v: string)
    requires PlainVersion(v)
    ensures Rewrite(Rewrite(line, v), v) == Rewrite(line, v)
  {
    RewriteParts(line, v);
    RewriteShape(line, v);
    RewriteShape(Rewrite(line, v), v);
  }

  /** A rewritten line, like the line it replaces, is clean. */
  lemma {:induction false} RewriteClean(line: string, v: string)
    requires PlainVersion(v) && NoLf(line) && NoCr(line)
    ensures NoLf(Rewrite(line, v)) && NoCr(Rewrite(line, v))
  {
    RewriteShape(line, v);
    LineParts(line);
    CleanSwap(Lead(line), Trim(line), Assignment(v), Trail(line));
  }

  /** Replacing the middle of a text free of LF and CR by another such text
      keeps it free of them. */
  lemma {:induction false} CleanSwap(b: string, t: string, a: string, c: string)
    requires NoLf(b + t + c) && NoCr(b + t + c) && NoLf(a) && NoCr(a)
    ensures NoLf(b + a + c) && NoCr(b + a + c)
  {
    var l := b + t + c;
    assert forall i :: 0 <= i < |b| ==> b[i] == l[i];
    assert forall i :: 0 <= i < |c| ==> c[i] == l[|b| + |t| + i];
  }

  // ---------------------------------------------------------------------------
  // The `inPackage` state machine

  /** What the three regular expressions say about one line. */
  datatype Kind = Kind(package: bool, section: bool, version: bool)

  function KindOf(line: string): (k: Kind)
    ensures k.package ==> k.section
    ensures k.version ==> !k.section
  {
    PackageHeaderIsSection(line);
    VersionLineNotHeader(line);
    Kind(IsPackageHeader(line), IsSectionHeader(line), IsVersionLine(line))
  }

  /** The classification of every line. */
  function Kinds(ls: seq<string>): (ks: seq<Kind>)
    ensures |ks| == |ls|
  {
    if |ls| == 0 then [] else Kinds(ls[..|ls| - 1]) + [KindOf(ls[|ls| - 1])]
  }

  lemma {:induction false} KindAt(ls: seq<string>, i: nat)
    requires i < |ls|
    ensures Kinds(ls)[i] == KindOf(ls[i])
  {
    if i < |ls| - 1 {
      KindAt(ls[..|ls| - 1], i);
    }
  }

  /** An empty line is none of the three. */
  lemma {:induction false} EmptyLineKind()
    ensures KindOf("") == Kind(false, false, false)
  {
    assert Trim("") == "";
  }

  lemma {:induction false} KindsPrefix(ls: seq<string>, ls': seq<string>, i: nat)
    requires i <= |ls| && i <= |ls'| && ls[..i] == ls'[..i]
    ensures Kinds(ls)[..i] == Kinds(ls')[..i]
  {
    forall j | 0 <= j < i
      ensures Kinds(ls)[j] == Kinds(ls')[j]
    {
      assert ls[j] == ls[..i][j] == ls'[j];
      KindAt(ls, j);
      KindAt(ls', j);
    }
  }

  /** The value of `inPackage` when line i is reached. */
  function InPackage(ks: seq<Kind>, i: nat): bool
    requires i <= |ks|
  {
    if i == 0 then false
    else if ks[i - 1].package then true
    else InPackage(ks, i - 1) && !ks[i - 1].section
  }

  /** The loop of `updateTomlVersion` has looked at the first i lines without
      meeting a target: `inPackage` is as after those lines, and the first
      target is still ahead. */
  ghost predicate ScanAt(ks: seq<Kind>, i: nat, inPackage: bool)
  {
    i <= |ks| && inPackage == InPackage(ks, i) && FirstTarget(ks, 0) == FirstTarget(ks, i)
  }

  /** Passing a line that is not a target: a `[package]` line sets `inPackage`,
      another section header clears it. */
  lemma {:induction false} ScanOn(ks: seq<Kind>, i: nat, inPackage: bool, inPackage': bool)
    requires i < |ks| && ScanAt(ks, i, inPackage) && !IsTarget(ks, i)
    requires inPackage' == if ks[i].package then true else inPackage && !ks[i].section
    ensures ScanAt(ks, i + 1, inPackage')
  {
  }

  /** Line i is rewritten if the loop reaches it: it is a version line, it is
      not itself a `[package]` line, and `inPackage` still holds after it. */
  predicate IsTarget(ks: seq<Kind>, i: nat)
    requires i < |ks|
  {
    !ks[i].package && InPackage(ks, i) && !ks[i].section && ks[i].version
  }

  /** The first target at or after k. */
  function FirstTarget(ks: seq<Kind>, k: nat): (r: Option<nat>)
    requires k <= |ks|
    ensures r.Some? ==> k <= r.value < |ks| && IsTarget(ks, r.value)
    ensures r.Some? ==> forall j :: k <= j < r.value ==> !IsTarget(ks, j)
    ensures r.None? ==> forall j :: k <= j < |ks| ==> !IsTarget(ks, j)
    decreases |ks| - k
  {
    if k == |ks| then None else if IsTarget(ks, k) then Some(k) else FirstTarget(ks, k + 1)
  }

  /** `inPackage` holds at line i exactly when some `[package]` line comes
      before it with no section header in between. */
  lemma {:induction false} InPackageMeaning(ks: seq<Kind>, i: nat)
    requires i <= |ks|
    ensures InPackage(ks, i) <==>
      exists h :: 0 <= h < i && ks[h].package && forall j :: h < j < i ==> !ks[j].section
  {
    if i > 0 {
      InPackageMeaning(ks, i - 1);
      if ks[i - 1].package {
        var h := i - 1;
        assert 0 <= h < i && ks[h].package;
      } else if ks[i - 1].section {
        forall h | 0 <= h < i && ks[h].package
          ensures exists j :: h < j < i && ks[j].section
        {
          assert h < i - 1;
        }
      } else {
        forall h | 0 <= h < i - 1 && ks[h].package && (forall j :: h < j < i - 1 ==> !ks[j].section)
          ensures forall j :: h < j < i ==> !ks[j].section
        {
        }
      }
    }
  }

  /** `inPackage` at line i depends only on the lines before it. */
  lemma {:induction false} InPackagePrefix(ks: seq<Kind>, ks': seq<Kind>, i: nat)
    requires i <= |ks| && i <= |ks'| && ks[..i] == ks'[..i]
    ensures InPackage(ks, i) == InPackage(ks', i)
  {
    if i > 0 {
      assert ks[i - 1] == ks[..i][i - 1] == ks'[i - 1];
      assert ks[..i - 1] == ks[..i][..i - 1];
      assert ks'[..i - 1] == ks'[..i][..i - 1];
      InPackagePrefix(ks, ks', i - 1);
    }
  }

  /** A text with no `[package]` line has no target. */
  lemma {:induction false} NoPackageNoTarget(ls: seq<string>)
    requires forall j :: 0 <= j < |ls| ==> !IsPackageHeader(ls[j])
    ensures FirstTarget(Kinds(ls), 0).None?
  {
    var ks := Kinds(ls);
    forall j | 0 <= j < |ks|
      ensures !ks[j].package
    {
      KindAt(ls, j);
    }
    forall i | 0 <= i < |ks|
      ensures !InPackage(ks, i)
    {
      InPackageMeaning(ks, i);
    }
  }

  /** After a section header other than `[package]`, `inPackage` stays off
      until the next `[package]` line. */
  lemma {:induction false} OutsidePackage(ks: seq<Kind>, h: nat, i: nat)
    requires h < i <= |ks|
    requires ks[h].section && !ks[h].package
    requires forall j :: h < j < i ==> !ks[j].package
    ensures !InPackage(ks, i)
  {
    if i > h + 1 {
      OutsidePackage(ks, h, i - 1);
    }
  }

  /** A version line under another section, with no `[package]` line between
      that section header and it, is never the target. */
  lemma {:induction false} OtherSectionUntouched(ls: seq<string>, h: nat, i: nat)
    requires h < i < |ls|
    requires IsSectionHeader(ls[h]) && !IsPackageHeader(ls[h])
    requires forall j :: h < j < i ==> !IsPackageHeader(ls[j])
    ensures !IsTarget(Kinds(ls), i)
  {
    var ks := Kinds(ls);
    forall j | h <= j <= i
      ensures ks[j] == KindOf(ls[j])
    {
      KindAt(ls, j);
    }
    OutsidePackage(ks, h, i);
  }

  // ---------------------------------------------------------------------------
  // updateTomlVersion

  function Terminator(tomlRaw: string): string
  {
    if |tomlRaw| > 0 && tomlRaw[|tomlRaw| - 1] == '\n' then "" else "\n"
  }

  /** The lines after the loop: the target, if any, rewritten. */
  function UpdatedLines(ls: seq<string>, v: string): (out: seq<string>)
    ensures |out| == |ls|
    ensures FirstTarget(Kinds(ls), 0).None? ==> out == ls
    ensures FirstTarget(Kinds(ls), 0).Some? ==>
      var i := FirstTarget(Kinds(ls), 0).value;
      out[i] == Rewrite(ls[i], v) && forall j :: 0 <= j < |ls| && j != i ==> out[j] == ls[j]
  {
    match FirstTarget(Kinds(ls), 0)
    case None => ls
    case Some(i) => ls[i := Rewrite(ls[i], v)]
  }

  /** The `raw` result: the lines, with the target rewritten, joined by LF,
      plus a final LF when the input did not end with one. */
  function UpdatedText(tomlRaw: string, v: string): string
  {
    Join(UpdatedLines(SplitLines(tomlRaw), v)) + Terminator(tomlRaw)
  }

  /** The `changed` result: there is a target and rewriting alters it. */
  predicate Changed(tomlRaw: string, v: string)
  {
    var ls := SplitLines(tomlRaw);
    match FirstTarget(Kinds(ls), 0)
    case None => false
    case Some(i) => Rewrite(ls[i], v) != ls[i]
  }

  /** The result always ends with a newline. */
  lemma {:induction false} UpdatedEndsLf(tomlRaw: string, v: string)
    ensures |UpdatedText(tomlRaw, v)| > 0 && UpdatedText(tomlRaw, v)[|UpdatedText(tomlRaw, v)| - 1] == '\n'
  {
    var ls := SplitLines(tomlRaw);
    var out := UpdatedLines(ls, v);
    var t := Terminator(tomlRaw);
    assert UpdatedText(tomlRaw, v) == Join(out) + t;
    if t == "" {
      SplitEndsEmpty(tomlRaw);
      UpdatedKeepsEmptyLast(ls, v);
      JoinEndsLf(out);
      EndsLf(Join(out), t);
    } else {
      EndsLf(Join(out), t);
    }
  }

  /** Text followed by LF, or LF-terminated text followed by nothing, ends in LF. */
  lemma EndsLf(body: string, term: string)
    requires term == "\n" || (term == "" && |body| > 0 && body[|body| - 1] == '\n')
    ensures |body + term| > 0 && (body + term)[|body + term| - 1] == '\n'
  {
    if term == "" {
      assert body + term == body;
    }
  }

  /** The rewrite leaves a final empty line alone: an empty line is never a target. */
  lemma {:induction false} UpdatedKeepsEmptyLast(ls: seq<string>, v: string)
    requires |ls| >= 2 && ls[|ls| - 1] == ""
    ensures var out := UpdatedLines(ls, v); |out| >= 2 && out[|out| - 1] == ""
  {
    var n := |ls| - 1;
    match FirstTarget(Kinds(ls), 0)
    case None =>
    case Some(i) =>
      VersionNotEmpty(ls, i);
      assert i != n;
  }

  /** A rewritten line is classified as a version line. */
  lemma {:induction false} RewrittenKind(ls: seq<string>, i: nat, line: string, v: string)
    requires PlainVersion(v) && i < |ls| && ls[i] == Rewrite(line, v)
    ensures Kinds(ls)[i] == Kind(false, false, true)
  {
    RewriteIsVersionLine(line, v);
    KindAt(ls, i);
  }

  /** A line classified as a version line is not empty. */
  lemma {:induction false} VersionNotEmpty(ls: seq<string>, i: nat)
    requires i < |ls| && Kinds(ls)[i].version
    ensures ls[i] != ""
  {
    KindAt(ls, i);
    EmptyLineKind();
  }

  /** A target with no target before it is the first one. */
  lemma {:induction false} FirstTargetIs(ks: seq<Kind>, k: nat, i: nat)
    requires k <= i < |ks| && IsTarget(ks, i)
    requires forall j :: k <= j < i ==> !IsTarget(ks, j)
    ensures FirstTarget(ks, k) == Some(i)
    decreases i - k
  {
    if k < i {
      FirstTargetIs(ks, k + 1, i);
    }
  }

  /** Two classifications that agree before line i, where line i of the
      second is a version line, `inPackage` holds there in the first and no
      earlier line of the first is a target: line i is the second's first
      target. */
  lemma {:induction false} TargetKept(ks: seq<Kind>, ks': seq<Kind>, i: nat)
    requires i < |ks| && i < |ks'| && ks[..i] == ks'[..i]
    requires forall j :: 0 <= j < i ==> !IsTarget(ks, j)
    requires ks'[i].version && !ks'[i].section && !ks'[i].package && InPackage(ks, i)
    ensures FirstTarget(ks', 0) == Some(i)
  {
    forall j | 0 <= j < i
      ensures !IsTarget(ks', j)
    {
      assert ks[j] == ks'[j] by {
        assert ks[j] == ks[..i][j] && ks'[j] == ks'[..i][j];
      }
      assert ks[..j] == ks'[..j] by {
        assert ks[..j] == ks[..i][..j] && ks'[..j] == ks'[..i][..j];
      }
      InPackagePrefix(ks, ks', j);
      assert !IsTarget(ks, j);
    }
    InPackagePrefix(ks, ks', i);
    FirstTargetIs(ks', 0, i);
  }

  /** Running the script a second time with the same plain version finds
      nothing to change (for LF files). */
  lemma {:induction false} SecondRunUnchanged(tomlRaw: string, v: string)
    requires NoCr(tomlRaw) && PlainVersion(v)
    ensures !Changed(UpdatedText(tomlRaw, v), v)
  {
    var ls := SplitLines(tomlRaw);
    var lines2 := SecondSplit(tomlRaw, v);
    if FirstTarget(Kinds(ls), 0).Some? {
      var i := FirstTarget(Kinds(ls), 0).value;
      assert ls[..i] == lines2[..i];
      SecondRunSameTarget(ls, lines2, v, i);
    } else {
      SecondRunNoTarget(ls, lines2);
    }
  }

  /** Without a target the second run sees the same lines, perhaps with an
      empty one added, and again no target. */
  lemma {:induction false} SecondRunNoTarget(ls: seq<string>, lines2: seq<string>)
    requires FirstTarget(Kinds(ls), 0).None?
    requires lines2 == ls || lines2 == ls + [""]
    ensures FirstTarget(Kinds(lines2), 0).None?
  {
    if lines2 != ls {
      KindsSnoc(ls, "");
      EmptyLineKind();
      NoTargetSnoc(Kinds(ls), KindOf(""));
    }
  }

  /** The rewritten line is again the first target, and rewriting it again
      gives the same line. */
  lemma {:induction false} SecondRunSameTarget(ls: seq<string>, lines2: seq<string>, v: string, i: nat)
    requires PlainVersion(v) && FirstTarget(Kinds(ls), 0) == Some(i)
    requires i < |lines2| && ls[..i] == lines2[..i] && lines2[i] == Rewrite(ls[i], v)
    ensures FirstTarget(Kinds(lines2), 0) == Some(i) && Rewrite(lines2[i], v) == lines2[i]
  {
    KindsPrefix(ls, lines2, i);
    RewrittenKind(lines2, i, ls[i], v);
    TargetKept(Kinds(ls), Kinds(lines2), i);
    RewriteIdempotent(ls[i], v);
  }

  lemma {:induction false} KindsSnoc(ls: seq<string>, l: string)
    ensures Kinds(ls + [l]) == Kinds(ls) + [KindOf(l)]
  {
    assert (ls + [l])[..|ls|] == ls;
  }

  /** A line that is not a version line added at the end adds no target. */
  lemma {:induction false} NoTargetSnoc(ks: seq<Kind>, k: Kind)
    requires FirstTarget(ks, 0).None? && !k.version
    ensures FirstTarget(ks + [k], 0).None?
  {
    var ks2 := ks + [k];
    forall j | 0 <= j < |ks2|
      ensures !IsTarget(ks2, j)
    {
      if j < |ks| {
        assert ks2[..j] == ks[..j];
        InPackagePrefix(ks, ks2, j);
        assert !IsTarget(ks, j);
      }
    }
  }

  /** The second run splits the first run's output back into its lines, plus
      an empty last line when the first run added the final LF. */
  lemma {:induction false} SecondSplit(tomlRaw: string, v: string) returns (lines2: seq<string>)
    requires NoCr(tomlRaw) && PlainVersion(v)
    ensures var out := UpdatedLines(SplitLines(tomlRaw), v);
      lines2 == (if Terminator(tomlRaw) == "" then out else out + [""])
    ensures SplitLines(UpdatedText(tomlRaw, v)) == lines2
  {
    var ls := SplitLines(tomlRaw);
    SplitClean(tomlRaw);
    var out := UpdatedLines(ls, v);
    UpdatedLinesClean(ls, v);
    lines2 := if Terminator(tomlRaw) == "" then out else out + [""];
    ReSplit(out, Terminator(tomlRaw));
  }

  /** Lines free of LF and CR, joined and terminated, split back into
      themselves (and an empty last line when a final LF was added). */
  lemma {:induction false} ReSplit(out: seq<string>, term: string)
    requires |out| >= 1 && (term == "" || term == "\n")
    requires forall j :: 0 <= j < |out| ==> NoLf(out[j]) && NoCr(out[j])
    ensures SplitLines(Join(out) + term) == if term == "" then out else out + [""]
  {
    var lines2 := if term == "" then out else out + [""];
    forall j | 0 <= j < |lines2|
      ensures CleanLine(lines2[j])
    {
    }
    SplitJoin(lines2, "\n");
    if term != "" {
      JoinSnoc(out, "");
      assert Join(out) + "\n" + "" == Join(out) + term;
    } else {
      assert Join(out) + term == Join(out);
    }
  }

  /** Rewriting keeps lines free of LF and CR. */
  lemma {:induction false} UpdatedLinesClean(ls: seq<string>, v: string)
    requires PlainVersion(v)
    requires forall j :: 0 <= j < |ls| ==> NoLf(ls[j]) && NoCr(ls[j])
    ensures forall j :: 0 <= j < |ls| ==> NoLf(UpdatedLines(ls, v)[j]) && NoCr(UpdatedLines(ls, v)[j])
  {
    if FirstTarget(Kinds(ls), 0).Some? {
      var i := FirstTarget(Kinds(ls), 0).value;
      RewriteClean(ls[i], v);
    }
  }

  /** `updateTomlVersion(tomlRaw, newVersion)`. */
  method UpdateTomlVersion(tomlRaw: string, newVersion: string) returns (raw: string, changed: bool)
    ensures raw == UpdatedText(tomlRaw, newVersion)
    ensures changed == Changed(tomlRaw, newVersion)
  {
    var lines := SplitLines(tomlRaw);
    ghost var ls := lines;
    ghost var ks := Kinds(ls);
    var inPackage := false;
    changed := false;
    var i := 0;
    while i < |lines|
      invariant 0 <= i <= |lines| && lines == ls && !changed
      invariant ScanAt(ks, i, inPackage)
    {
      var line := lines[i];
      KindAt(ls, i);
      ghost var before := inPackage;
      if IsPackageHeader(line) {
        inPackage := true;
        ScanOn(ks, i, before, inPackage);
        i := i + 1;
        continue;
      }
      if inPackage && IsSectionHeader(line) {
        inPackage := false;
      }
      if inPackage && IsVersionLine(line) {
        assert FirstTarget(ks, 0) == Some(i);
        var next := Rewrite(line, newVersion);
        if next != line {
          lines := lines[i := next];
          changed := true;
        }
        assert lines == UpdatedLines(ls, newVersion);
        break;
      }
      ScanOn(ks, i, before, inPackage);
      i := i + 1;
    }
    assert lines == UpdatedLines(ls, newVersion);
    raw := Join(lines) + (if |tomlRaw| > 0 && tomlRaw[|tomlRaw| - 1] == '\n' then "" else "\n");
  }
}
