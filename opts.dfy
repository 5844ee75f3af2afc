/** Command-line option matching (util.cpp). A C string is the sequence of its
    characters before the terminator, so it holds no '\0'; a `char*` into it is a
    position, and reading at the end yields the terminator. */
module ProgramOpts {

  datatype Option<T> = None | Some(value: T)

  /** A `char*` that is either null or points at a position of the argument. */
  datatype CharRef = Null | At(pos: nat)

  /** A registered short option `-c` and its id; `arg == '\0'` ends a table. */
  datatype ShortOpt = ShortOpt(arg: char, id: int)

  /** A registered long option `--name` and its id; a null `arg` ends a table. */
  datatype LongOpt = LongOpt(arg: Option<string>, id: int)

  predicate CString(s: string)
  {
    forall i :: 0 <= i < |s| ==> s[i] != '\0'
  }

  /** `*ptr`: the character at position p, or the terminator at the end. */
  function CharAt(s: string, p: nat): char
  {
    if p < |s| then s[p] else '\0'
  }

  predicate PointsInto(s: string, opt: CharRef)
  {
    opt.At? ==> opt.pos <= |s|
  }

  /** compareShortOpt: the reference past the first character when it is the
      registered one and is neither the terminator nor '='. */
  function CompareShortOpt(s: string, opt: CharRef, shortOpt: ShortOpt): (r: CharRef)
    ensures r != Null <==>
      opt.At? && CharAt(s, opt.pos) == shortOpt.arg && shortOpt.arg != '\0' && shortOpt.arg != '='
    ensures r != Null ==> r.pos == opt.pos + 1
    ensures PointsInto(s, opt) && CString(s) && r != Null ==> PointsInto(s, r)
  {
    if opt.At? && CharAt(s, opt.pos) == shortOpt.arg && CharAt(s, opt.pos) != '\0'
       && CharAt(s, opt.pos) != '='
    then At(opt.pos + 1)
    else Null
  }

  /** The end of the option name that starts at p: the first '=' or the end. */
  function KeyEnd(s: string, p: nat): (e: nat)
    requires p <= |s|
    ensures p <= e <= |s|
    ensures e < |s| ==> s[e] == '='
    ensures forall i :: p <= i < e ==> s[i] != '='
    decreases |s| - p
  {
    if p == |s| || s[p] == '=' then p else KeyEnd(s, p + 1)
  }

  /** What a `--name[=value]` argument at p means for the registered name: no match
      (null) unless the whole key equals the name; otherwise the value, which starts
      after '=' or is the empty string at the end. */
  function LongOptMatch(s: string, p: nat, name: string): (r: CharRef)
    requires p <= |s|
    ensures PointsInto(s, r)
  {
    if p == |s| || s[p] == '=' then Null
    else if s[p..KeyEnd(s, p)] != name then Null
    else if KeyEnd(s, p) < |s| then At(KeyEnd(s, p) + 1)
    else At(|s|)
  }

  /** compareLongOpt: walks the argument and the registered name together. */
  method CompareLongOpt(s: string, opt: CharRef, name: string) returns (r: CharRef)
    requires CString(s) && CString(name) && PointsInto(s, opt)
    ensures opt == Null ==> r == Null
    ensures opt.At? ==> r == LongOptMatch(s, opt.pos, name)
  {
    if opt == Null || CharAt(s, opt.pos) == '\0' || CharAt(s, opt.pos) == '=' {
      return Null;
    }
    var p := opt.pos;
    var i := p;
    var j := 0;
    while CharAt(s, i) != '\0' && CharAt(s, i) != '=' && CharAt(name, j) != '\0'
      invariant p <= i <= |s| && j == i - p && j <= |name|
      invariant forall k :: p <= k < i ==> s[k] != '='
      invariant s[p..i] == name[..j]
      decreases |s| - i
    {
      if CharAt(s, i) != CharAt(name, j) {
        assert s[p..i + 1] != name[..j + 1] by {
          assert s[p..i + 1][j] == s[i] && name[..j + 1][j] == name[j];
        }
        KeyExtends(s, p, i + 1, name);
        return Null;
      }
      assert s[p..i + 1] == s[p..i] + [s[i]];
      assert name[..j + 1] == name[..j] + [name[j]];
      i := i + 1;
      j := j + 1;
    }
    var end := KeyEnd(s, p);
    KeyEndAfter(s, p, i);
    if (CharAt(s, i) == '\0' || CharAt(s, i) == '=') && CharAt(name, j) == '\0' {
      assert i == end;
      assert name[..j] == name;
      if CharAt(s, i) == '=' {
        return At(i + 1);
      }
      return At(i);
    }
    if CharAt(name, j) == '\0' {
      // the name ended inside the key
      assert name[..j] == name;
      assert i < end;
      assert s[p..end][..j] == s[p..i];
      assert |s[p..end]| != |name|;
    } else {
      // the key ended inside the name
      assert i == end;
      assert |s[p..end]| != |name|;
    }
    return Null;
  }

  /** A key that differs from the name within its first k - p characters is not the name. */
  lemma KeyExtends(s: string, p: nat, k: nat, name: string)
    requires p < k <= |s| && k - p <= |name|
    requires forall i :: p <= i < k ==> s[i] != '='
    requires s[p..k] != name[..k - p]
    ensures s[p..KeyEnd(s, p)] != name
  {
    KeyEndAfter(s, p, k);
    var e := KeyEnd(s, p);
    assert s[p..e][..k - p] == s[p..k];
  }

  /** The key ends no earlier than any position before which there is no '='. */
  lemma {:induction false} KeyEndAfter(s: string, p: nat, k: nat)
    requires p <= k <= |s|
    requires forall i :: p <= i < k ==> s[i] != '='
    ensures k <= KeyEnd(s, p)
    decreases k - p
  {
    if p < k {
      KeyEndAfter(s, p + 1, k);
    }
  }

  /** The key ends at the first '=' following a name free of '='. */
  lemma {:induction false} KeyEndOfName(prefix: string, name: string, rest: string)
    requires forall i :: 0 <= i < |name| ==> name[i] != '='
    requires rest == [] || rest[0] == '='
    ensures KeyEnd(prefix + name + rest, |prefix|) == |prefix| + |name|
    decreases |name|
  {
    var s := prefix + name + rest;
    if name == [] {
      assert s == prefix + rest;
    } else {
      assert s[|prefix|] == name[0];
      KeyEndOfName(prefix + [name[0]], name[1..], rest);
      assert prefix + [name[0]] + name[1..] + rest == s;
    }
  }

  /** `--name=value` yields a reference to exactly `value`. */
  lemma LongOptValue(prefix: string, name: string, value: string)
    requires name != [] && name[0] != '='
    requires forall i :: 0 <= i < |name| ==> name[i] != '='
    ensures var s := prefix + name + "=" + value;
      LongOptMatch(s, |prefix|, name) == At(|prefix| + |name| + 1)
      && s[|prefix| + |name| + 1..] == value
  {
    var s := prefix + name + "=" + value;
    KeyEndOfName(prefix, name, "=" + value);
    assert s == prefix + name + ("=" + value);
    assert s[|prefix|] == name[0];
    assert s[|prefix|..|prefix| + |name|] == name;
  }

  /** A bare `--name` yields a reference to the terminator: an empty value. */
  lemma LongOptBare(prefix: string, name: string)
    requires name != [] && name[0] != '='
    requires forall i :: 0 <= i < |name| ==> name[i] != '='
    ensures LongOptMatch(prefix + name, |prefix|, name) == At(|prefix + name|)
  {
    var s := prefix + name;
    KeyEndOfName(prefix, name, "");
    assert s == prefix + name + "";
    assert s[|prefix|] == name[0];
    assert s[|prefix|..|prefix| + |name|] == name;
  }

  /** A registered name never matches a proper prefix or a proper extension of it. */
  lemma LongOptWholeName(s: string, p: nat, name: string)
    requires p <= |s|
    ensures LongOptMatch(s, p, name) != Null ==>
      s[p..KeyEnd(s, p)] == name && (KeyEnd(s, p) == |s| || s[KeyEnd(s, p)] == '=')
    ensures forall n: string :: |n| < |name| && name[..|n|] == n ==>
      (LongOptMatch(s, p, name) != Null ==> LongOptMatch(s, p, n) == Null)
    ensures forall n: string :: |n| > |name| && n[..|name|] == name ==>
      (LongOptMatch(s, p, name) != Null ==> LongOptMatch(s, p, n) == Null)
  {
  }

  /** A table ends with its terminator entry. */
  predicate ShortTable(table: seq<ShortOpt>)
  {
    |table| > 0 && table[|table| - 1].arg == '\0'
  }

  predicate LongTable(table: seq<LongOpt>)
  {
    |table| > 0 && table[|table| - 1].arg == None
    && forall k :: 0 <= k < |table| && table[k].arg.Some? ==> CString(table[k].arg.value)
  }

  /** The number of entries before the first terminator: the ones a lookup scans. */
  function ShortLive(table: seq<ShortOpt>, from: nat): (n: nat)
    requires ShortTable(table) && from < |table|
    ensures from <= n < |table| && table[n].arg == '\0'
    ensures forall k :: from <= k < n ==> table[k].arg != '\0'
    decreases |table| - from
  {
    if table[from].arg == '\0' then from else ShortLive(table, from + 1)
  }

  function LongLive(table: seq<LongOpt>, from: nat): (n: nat)
    requires LongTable(table) && from < |table|
    ensures from <= n < |table| && table[n].arg == None
    ensures forall k :: from <= k < n ==> table[k].arg.Some?
    decreases |table| - from
  {
    if table[from].arg == None then from else LongLive(table, from + 1)
  }

  /** Lookup in table order from entry i: the first match with its id, or null and -1. */
  function ShortLookup(s: string, opt: CharRef, table: seq<ShortOpt>, i: nat): (CharRef, int)
    requires ShortTable(table) && i < |table|
    decreases |table| - i
  {
    if table[i].arg == '\0' then (Null, -1)
    else if CompareShortOpt(s, opt, table[i]) != Null then (CompareShortOpt(s, opt, table[i]), table[i].id)
    else ShortLookup(s, opt, table, i + 1)
  }

  function LongLookup(s: string, p: nat, table: seq<LongOpt>, i: nat): (r: (CharRef, int))
    requires LongTable(table) && i < |table| && p <= |s|
    ensures PointsInto(s, r.0)
    decreases |table| - i
  {
    if table[i].arg == None then (Null, -1)
    else if LongOptMatch(s, p, table[i].arg.value) != Null
    then (LongOptMatch(s, p, table[i].arg.value), table[i].id)
    else LongLookup(s, p, table, i + 1)
  }

  /** The short lookup returns the first live entry that matches, or null and -1. */
  lemma {:induction false} ShortLookupFirst(s: string, opt: CharRef, table: seq<ShortOpt>, i: nat)
    requires ShortTable(table) && i < |table|
    ensures var (r, id) := ShortLookup(s, opt, table, i);
      (r == Null <==> forall k :: i <= k < ShortLive(table, i) ==> CompareShortOpt(s, opt, table[k]) == Null)
      && (r == Null ==> id == -1)
      && (r != Null ==>
            exists k :: i <= k < ShortLive(table, i) && r == CompareShortOpt(s, opt, table[k])
              && id == table[k].id && forall k' :: i <= k' < k ==> CompareShortOpt(s, opt, table[k']) == Null)
    decreases |table| - i
  {
    if table[i].arg != '\0' && CompareShortOpt(s, opt, table[i]) == Null {
      ShortLookupFirst(s, opt, table, i + 1);
      assert ShortLive(table, i) == ShortLive(table, i + 1);
    }
  }

  /** The long lookup returns the first live entry whose name matches, or null and -1. */
  lemma {:induction false} LongLookupFirst(s: string, p: nat, table: seq<LongOpt>, i: nat)
    requires LongTable(table) && i < |table| && p <= |s|
    ensures var (r, id) := LongLookup(s, p, table, i);
      (r == Null <==> forall k :: i <= k < LongLive(table, i) ==> LongOptMatch(s, p, table[k].arg.value) == Null)
      && (r == Null ==> id == -1)
      && (r != Null ==>
            exists k :: i <= k < LongLive(table, i) && r == LongOptMatch(s, p, table[k].arg.value)
              && id == table[k].id
              && forall k' :: i <= k' < k ==> LongOptMatch(s, p, table[k'].arg.value) == Null)
    decreases |table| - i
  {
    if table[i].arg.Some? && LongOptMatch(s, p, table[i].arg.value) == Null {
      LongLookupFirst(s, p, table, i + 1);
      assert LongLive(table, i) == LongLive(table, i + 1);
    }
  }

  /** getShortOpt: scans the table up to its terminator. */
  method GetShortOpt(s: string, opt: CharRef, table: seq<ShortOpt>) returns (r: CharRef, id: int)
    requires ShortTable(table)
    ensures (r, id) == ShortLookup(s, opt, table, 0)
  {
    var i := 0;
    while table[i].arg != '\0'
      invariant i < |table|
      invariant ShortLookup(s, opt, table, i) == ShortLookup(s, opt, table, 0)
      decreases |table| - i
    {
      r := CompareShortOpt(s, opt, table[i]);
      if r != Null {
        id := table[i].id;
        return;
      }
      i := i + 1;
    }
    id := -1;
    r := Null;
  }

  /** getLongOpt: scans the table up to its null entry. */
  method GetLongOpt(s: string, opt: CharRef, table: seq<LongOpt>) returns (r: CharRef, id: int)
    requires CString(s) && LongTable(table) && opt.At? && opt.pos <= |s|
    ensures (r, id) == LongLookup(s, opt.pos, table, 0)
  {
    var i := 0;
    while table[i].arg != None
      invariant i < |table|
      invariant LongLookup(s, opt.pos, table, i) == LongLookup(s, opt.pos, table, 0)
      decreases |table| - i
    {
      r := CompareLongOpt(s, opt, table[i].arg.value);
      if r != Null {
        id := table[i].id;
        return;
      }
      i := i + 1;
    }
    id := -1;
    r := Null;
  }

  /** getOpt: "--" selects the long table when there is one, otherwise a leading
      '-' selects the short table; anything else is not an option. */
  method GetOpt(s: string, shortOpts: Option<seq<ShortOpt>>, longOpts: Option<seq<LongOpt>>)
    returns (r: CharRef, id: int)
    requires CString(s)
    requires shortOpts.Some? ==> ShortTable(shortOpts.value)
    requires longOpts.Some? ==> LongTable(longOpts.value)
    ensures CharAt(s, 0) != '-' ==> r == Null && id == -1
    ensures CharAt(s, 0) == '-' && CharAt(s, 1) == '-' && longOpts.Some? ==>
      (r, id) == LongLookup(s, 2, longOpts.value, 0)
    ensures CharAt(s, 0) == '-' && !(CharAt(s, 1) == '-' && longOpts.Some?) && shortOpts.Some? ==>
      (r, id) == ShortLookup(s, At(1), shortOpts.value, 0)
    ensures CharAt(s, 0) == '-' && !(CharAt(s, 1) == '-' && longOpts.Some?) && shortOpts.None? ==>
      r == Null && id == -1
    ensures r == Null ==> id == -1
  {
    if CharAt(s, 0) == '-' {
      if CharAt(s, 1) == '-' && longOpts.Some? {
        r, id := GetLongOpt(s, At(2), longOpts.value);
        LongLookupFirst(s, 2, longOpts.value, 0);
        return;
      }
      if shortOpts.Some? {
        r, id := GetShortOpt(s, At(1), shortOpts.value);
        ShortLookupFirst(s, At(1), shortOpts.value, 0);
        return;
      }
    }
    id := -1;
    r := Null;
  }
}
