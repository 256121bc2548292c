/**
  The download-name rule shared by the list's export action and the playback
  page's export button: `name.replace(/\s+/g, "_") + ".webm"`. Every maximal run
  of JavaScript whitespace becomes one underscore and the container extension
  is appended.
 */
module FileNames {

  /** The characters JavaScript's `\s` class matches: WhiteSpace and LineTerminator code points. */
  predicate IsSpace(c: char) {
    var u := c as int;
    u == 0x09 || u == 0x0A || u == 0x0B || u == 0x0C || u == 0x0D || u == 0x20
    || u == 0xA0 || u == 0x1680 || (0x2000 <= u <= 0x200A) || u == 0x2028 || u == 0x2029
    || u == 0x202F || u == 0x205F || u == 0x3000 || u == 0xFEFF
  }

  /**
    What `\s` matches in the ASCII range: space, tab, line feed, vertical tab,
    form feed and carriage return, and nothing else; outside it, among others,
    the no-break space, the line and paragraph separators and the byte-order mark.
   */
  lemma SpaceClass()
    ensures forall c: char :: c as int < 128 ==> (IsSpace(c) <==> c == ' ' || 9 <= c as int <= 13)
    ensures IsSpace(0xA0 as char) && IsSpace(0x2028 as char) && IsSpace(0x2029 as char)
    ensures IsSpace(0xFEFF as char) && IsSpace(0x3000 as char)
    ensures !IsSpace('_') && !IsSpace('.')
  {
  }

  predicate NoSpace(s: string) {
    forall i :: 0 <= i < |s| ==> !IsSpace(s[i])
  }

  /** What is left after the greedy `\s+` match at the front of `s`. */
  function SkipSpaces(s: string): (r: string)
    ensures |r| <= |s| && r == s[|s| - |r|..]
    ensures forall k :: 0 <= k < |s| - |r| ==> IsSpace(s[k])
    ensures r == [] || !IsSpace(r[0])
    decreases |s|
  {
    if s != [] && IsSpace(s[0]) then SkipSpaces(s[1..]) else s
  }

  /** `s.replace(/\s+/g, "_")`: scan left to right, replacing each maximal whitespace run by `_`. */
  function Collapse(s: string): (r: string)
    ensures NoSpace(r)
    ensures |r| <= |s|
    decreases |s|
  {
    if s == [] then []
    else if IsSpace(s[0]) then "_" + Collapse(SkipSpaces(s))
    else [s[0]] + Collapse(s[1..])
  }

  /** The exported file's name: the collapsed name plus `.webm`. */
  function WebmName(name: string): (r: string)
    ensures |r| >= 5 && r[|r| - 5..] == ".webm"
    ensures NoSpace(r)
    ensures r[..|r| - 5] == Collapse(name)
  {
    var c := Collapse(name);
    assert !IsSpace('.') && !IsSpace('w') && !IsSpace('e') && !IsSpace('b') && !IsSpace('m');
    NoSpaceConcat(c, ".webm");
    var r := c + ".webm";
    assert r[..|r| - 5] == c && r[|r| - 5..] == ".webm";
    r
  }

  /** Joining two whitespace-free strings gives a whitespace-free string. */
  lemma NoSpaceConcat(a: string, b: string)
    requires NoSpace(a) && NoSpace(b)
    ensures NoSpace(a + b)
  {
    forall i | 0 <= i < |a + b|
      ensures !IsSpace((a + b)[i])
    {
      if i >= |a| {
        assert (a + b)[i] == b[i - |a|];
      }
    }
  }

  /**
    A reference definition of the same rule, one character at a time: a
    non-space is kept, a space opening a run is written as `_`, a space that
    continues a run is dropped.
   */
  function Emit(s: string, i: nat): string
    requires i < |s|
  {
    if !IsSpace(s[i]) then [s[i]]
    else if i > 0 && IsSpace(s[i - 1]) then []
    else "_"
  }

  function EmitFrom(s: string, i: nat): string
    requires i <= |s|
    decreases |s| - i
  {
    if i == |s| then [] else Emit(s, i) + EmitFrom(s, i + 1)
  }

  /** The regular-expression rule and the per-character rule agree on every name. */
  lemma CollapseIsPerCharacter(s: string)
    ensures Collapse(s) == EmitFrom(s, 0)
  {
    CollapseSuffix(s, 0);
  }

  lemma {:induction false} CollapseSuffix(s: string, i: nat)
    requires i <= |s|
    requires i == 0 || i == |s| || !IsSpace(s[i - 1]) || !IsSpace(s[i])
    ensures Collapse(s[i..]) == EmitFrom(s, i)
    decreases |s| - i
  {
    if i == |s| {
    } else if !IsSpace(s[i]) {
      KeepStep(s, i);
      CollapseSuffix(s, i + 1);
    } else {
      var j := RunEnd(s, i);
      CollapseSuffix(s, j);
    }
  }

  /** A non-space at `i` is copied by both rules. */
  lemma KeepStep(s: string, i: nat)
    requires i < |s| && !IsSpace(s[i])
    ensures Collapse(s[i..]) == [s[i]] + Collapse(s[i + 1..])
    ensures EmitFrom(s, i) == [s[i]] + EmitFrom(s, i + 1)
  {
    assert s[i..][0] == s[i];
    assert s[i..][1..] == s[i + 1..];
  }

  /** A whitespace run starting at `i` ends at `j`; both rules write one `_` for it. */
  lemma RunEnd(s: string, i: nat) returns (j: nat)
    requires i < |s| && IsSpace(s[i])
    requires i == 0 || !IsSpace(s[i - 1])
    ensures i < j <= |s| && (j == |s| || !IsSpace(s[j]))
    ensures Collapse(s[i..]) == "_" + Collapse(s[j..])
    ensures EmitFrom(s, i) == "_" + EmitFrom(s, j)
  {
    j := RunBounds(s, i);
    assert s[i..][0] == s[i];
    assert Collapse(s[i..]) == "_" + Collapse(SkipSpaces(s[i..]));
    EmitRun(s, i, j);
  }

  /** The per-character rule writes one `_` for the run `s[i..j]`. */
  lemma EmitRun(s: string, i: nat, j: nat)
    requires i < j <= |s|
    requires forall k :: i <= k < j ==> IsSpace(s[k])
    requires i == 0 || !IsSpace(s[i - 1])
    ensures EmitFrom(s, i) == "_" + EmitFrom(s, j)
  {
    EmitOpensRun(s, i);
    RunEmitsNothing(s, i + 1, j);
  }

  /** The first space of a run is written as `_`. */
  lemma EmitOpensRun(s: string, i: nat)
    requires i < |s| && IsSpace(s[i])
    requires i == 0 || !IsSpace(s[i - 1])
    ensures EmitFrom(s, i) == "_" + EmitFrom(s, i + 1)
  {
  }

  /** Where the greedy match that starts at `i` stops. */
  lemma RunBounds(s: string, i: nat) returns (j: nat)
    requires i < |s| && IsSpace(s[i])
    ensures i < j <= |s| && (j == |s| || !IsSpace(s[j]))
    ensures SkipSpaces(s[i..]) == s[j..]
    ensures forall k :: i <= k < j ==> IsSpace(s[k])
  {
    var t := s[i..];
    var rest := SkipSpaces(t);
    j := |s| - |rest|;
    assert rest == s[j..];
    assert t[0] == s[i];
    forall k | i <= k < j
      ensures IsSpace(s[k])
    {
      assert s[k] == t[k - i];
    }
  }

  /** Inside a whitespace run, after its first character, nothing is emitted. */
  lemma {:induction false} RunEmitsNothing(s: string, i: nat, j: nat)
    requires 0 < i <= j <= |s|
    requires forall k :: i - 1 <= k < j ==> IsSpace(s[k])
    ensures EmitFrom(s, i) == EmitFrom(s, j)
    decreases j - i
  {
    if i < j {
      RunEmitsNothing(s, i + 1, j);
    }
  }

  /** A name without whitespace is exported unchanged apart from the extension. */
  lemma {:induction false} CollapseKeepsSpaceFree(s: string)
    requires NoSpace(s)
    ensures Collapse(s) == s
    decreases |s|
  {
    if s != [] {
      CollapseKeepsSpaceFree(s[1..]);
    }
  }

  /** Collapsing twice is collapsing once. */
  lemma CollapseIdempotent(s: string)
    ensures Collapse(Collapse(s)) == Collapse(s)
  {
    CollapseKeepsSpaceFree(Collapse(s));
  }
}
