/** Resolving a path from documentation prose against the index of the documented items. */
module DocResolve {
  import opened Wrappers
  import opened DocIndex

  predicate StartsWith(s: string, prefix: string) {
    prefix <= s
  }

  predicate EndsWith(s: string, suffix: string) {
    |suffix| <= |s| && s[|s| - |suffix|..] == suffix
  }

  function WithoutSuffix(s: string, suffix: string): string {
    if EndsWith(s, suffix) then s[..|s| - |suffix|] else s
  }

  /** What follows the last `c`, or everything when there is none. */
  function AfterLast(s: string, c: char): (r: string)
    ensures c !in r
  {
    if c !in s then s else AfterLast(s[1..], c)
  }

  function WithoutPrefix(ref: string, prefix: string, index: map<string, Target>): string {
    if StartsWith(ref, prefix) && ref !in index then ref[|prefix|..] else ref
  }

  /** The path a reference stands for, before any fallback to an owning item. */
  function PathOf(ref: string, index: map<string, Target>, enclosing: string): string {
    var bare := AfterLast(WithoutSuffix(WithoutSuffix(ref, "()"), "!"), '@');
    var owned := if StartsWith(bare, "Self::") && enclosing != "" then enclosing + "::" + bare[6..] else bare;
    WithoutPrefix(WithoutPrefix(WithoutPrefix(owned, "crate::", index), "self::", index), "super::", index)
  }

  /** A path separator stands at position `k`. */
  predicate SeparatorAt(ref: string, k: nat) {
    k + 2 <= |ref| && ref[k] == ':' && ref[k + 1] == ':'
  }

  ghost predicate IsLastSeparator(ref: string, k: nat) {
    && SeparatorAt(ref, k)
    && forall j: nat :: SeparatorAt(ref, j) ==> j <= k
  }

  function LastSeparator(ref: string): (r: Option<nat>)
    ensures r.Some? ==> IsLastSeparator(ref, r.value)
    ensures r.None? ==> forall k: nat :: !SeparatorAt(ref, k)
  {
    LastSeparatorBelow(ref, |ref|)
  }

  function LastSeparatorBelow(ref: string, below: nat): (r: Option<nat>)
    requires forall k: nat :: SeparatorAt(ref, k) ==> k < below
    ensures r.Some? ==> IsLastSeparator(ref, r.value)
    ensures r.None? ==> forall k: nat :: !SeparatorAt(ref, k)
  {
    if below == 0 then None
    else if SeparatorAt(ref, below - 1) then Some(below - 1)
    else LastSeparatorBelow(ref, below - 1)
  }

  /** The lookup: the whole path, then what is left of it as segments are cut off its end. */
  function Lookup(ref: string, index: map<string, Target>): Option<Target> {
    if ref == "" then None
    else if ref in index then Some(index[ref])
    else
      match LastSeparator(ref)
      case None => None
      case Some(k) => Lookup(ref[..k], index)
  }

  function Resolve(ref: string, index: map<string, Target>, enclosing: string): Option<Target> {
    Lookup(PathOf(ref, index, enclosing), index)
  }

  /** The name as the script computes it: an absent enclosing item is the empty string. */
  method ResolveReference(reference: string, index: map<string, Target>, enclosing: string) returns (r: Option<Target>)
    ensures r == Resolve(reference, index, enclosing)
  {
    var ref := WithoutSuffix(WithoutSuffix(reference, "()"), "!");
    ref := AfterLast(ref, '@');
    if StartsWith(ref, "Self::") && enclosing != "" {
      ref := enclosing + "::" + ref[6..];
    }
    var prefixes := ["crate::", "self::", "super::"];
    ghost var owned := ref;
    for i := 0 to 3
      invariant i == 0 ==> ref == owned
      invariant i == 1 ==> ref == WithoutPrefix(owned, "crate::", index)
      invariant i == 2 ==> ref == WithoutPrefix(WithoutPrefix(owned, "crate::", index), "self::", index)
      invariant i == 3 ==> ref == PathOf(reference, index, enclosing)
    {
      if StartsWith(ref, prefixes[i]) && ref !in index {
        ref := ref[|prefixes[i]|..];
      }
    }
    while ref != ""
      invariant Lookup(ref, index) == Resolve(reference, index, enclosing)
      decreases |ref|
    {
      if ref in index {
        return Some(index[ref]);
      }
      match LastSeparator(ref)
      case None => return None;
      case Some(k) => ref := ref[..k];
    }
    return None;
  }

  // ----- the longest prefix -----

  /** `ref[..k]` is a non-empty path that `ref` equals or extends by whole segments, and has a page. */
  predicate IsOwner(ref: string, k: nat, index: map<string, Target>) {
    && 0 < k <= |ref|
    && (k == |ref| || SeparatorAt(ref, k))
    && ref[..k] in index
  }

  /** The target of the longest such prefix. */
  ghost predicate IsLongest(ref: string, index: map<string, Target>, r: Option<Target>) {
    match r
    case None => forall k: nat :: !IsOwner(ref, k, index)
    case Some(target) =>
      exists k: nat ::
        && IsOwner(ref, k, index)
        && index[ref[..k]] == target
        && forall j: nat :: IsOwner(ref, j, index) ==> j <= k
  }

  /** Two separators of `ref` overlap, past its first character. */
  ghost predicate Overlaps(ref: string) {
    exists k: nat :: 0 < k && SeparatorAt(ref, k) && SeparatorAt(ref, k + 1)
  }

  /** The lookup finds the longest indexed prefix whatever is in the index, exactly when the path has
      no three colons in a row past its start. */
  lemma LookupIsLongestIff(ref: string)
    ensures (forall index: map<string, Target> :: IsLongest(ref, index, Lookup(ref, index))) <==> !Overlaps(ref)
  {
    if Overlaps(ref) {
      var k := LastOverlap(ref, |ref|);
      var index: map<string, Target> := map[ref[..k] := Target("", "")];
      LookupSkips(ref, k, |ref|, index);
      assert ref[..|ref|] == ref;
      assert IsOwner(ref, k, index);
      assert !IsLongest(ref, index, Lookup(ref, index));
    } else {
      forall index: map<string, Target>
        ensures IsLongest(ref, index, Lookup(ref, index))
      {
        LookupIsLongest(ref, index);
      }
    }
  }

  lemma {:induction false} LookupIsLongest(ref: string, index: map<string, Target>)
    requires !Overlaps(ref)
    ensures IsLongest(ref, index, Lookup(ref, index))
    decreases |ref|
  {
    if ref != "" && ref in index {
      assert ref[..|ref|] == ref;
      assert IsOwner(ref, |ref|, index);
    } else if ref != "" && LastSeparator(ref).Some? {
      var cut := LastSeparator(ref).value;
      var rest := ref[..cut];
      forall k: nat | SeparatorAt(rest, k)
        ensures SeparatorAt(ref, k)
      {
      }
      LookupIsLongest(rest, index);
      forall k: nat
        ensures IsOwner(ref, k, index) <==> IsOwner(rest, k, index)
        ensures k <= cut ==> ref[..k] == rest[..k]
      {
        OwnerSurvivesCut(ref, cut, k, index);
      }
    } else {
      assert ref[..|ref|] == ref;
    }
  }

  lemma OwnerSurvivesCut(ref: string, cut: nat, k: nat, index: map<string, Target>)
    requires !Overlaps(ref) && ref !in index
    requires IsLastSeparator(ref, cut)
    ensures IsOwner(ref, k, index) <==> IsOwner(ref[..cut], k, index)
    ensures k <= cut ==> ref[..k] == ref[..cut][..k]
  {
    assert ref[..|ref|] == ref;
    if k <= cut {
      assert ref[..k] == ref[..cut][..k];
    }
    if 0 < k < cut && SeparatorAt(ref, k) {
      assert k + 1 != cut;
      assert SeparatorAt(ref[..cut], k);
    }
  }

  /** The last place where two separators overlap. */
  lemma LastOverlap(ref: string, below: nat) returns (k: nat)
    requires Overlaps(ref)
    requires forall j: nat :: SeparatorAt(ref, j) && SeparatorAt(ref, j + 1) ==> j < below
    ensures 0 < k && SeparatorAt(ref, k) && SeparatorAt(ref, k + 1)
    ensures forall j: nat :: SeparatorAt(ref, j) && SeparatorAt(ref, j + 1) ==> j <= k
  {
    if 0 < below && SeparatorAt(ref, below - 1) && SeparatorAt(ref, below) {
      k := below - 1;
      if k == 0 {
        assert false;
      }
    } else if below > 0 {
      k := LastOverlap(ref, below - 1);
    }
  }

  /** From beyond the overlap at `k`, the cuts come to `k + 1` and then step over `k`. */
  lemma {:induction false} LookupSkips(ref: string, k: nat, length: nat, index: map<string, Target>)
    requires 0 < k && SeparatorAt(ref, k) && SeparatorAt(ref, k + 1)
    requires forall j: nat :: SeparatorAt(ref, j) && SeparatorAt(ref, j + 1) ==> j <= k
    requires length <= |ref| && length != k && length != k + 2
    requires index.Keys == {ref[..k]}
    ensures Lookup(ref[..length], index) == None
    decreases length
  {
    var path := ref[..length];
    if path != "" {
      assert path != ref[..k];
      match LastSeparator(path)
      case None =>
      case Some(cut) =>
        assert path[..cut] == ref[..cut];
        assert SeparatorAt(ref, cut);
        if k + 3 <= length {
          assert SeparatorAt(path, k + 1);
        }
        assert cut != k + 2 by {
          assert !SeparatorAt(ref, k + 2);
        }
        LookupSkips(ref, k, cut, index);
    }
  }

  // ----- what the spelling of a reference may add -----

  /** A kind before an `@` changes nothing, for any reference. */
  lemma KindIsIgnored(kind: string, ref: string, index: map<string, Target>, enclosing: string)
    ensures Resolve(kind + "@" + ref, index, enclosing) == Resolve(ref, index, enclosing)
  {
    hide Lookup, WithoutPrefix;
    var full := kind + "@" + ref;
    SuffixBehindKind(kind, ref, "()");
    var called := WithoutSuffix(ref, "()");
    SuffixBehindKind(kind, called, "!");
    AfterKind(kind, WithoutSuffix(called, "!"));
  }

  lemma SuffixBehindKind(kind: string, ref: string, suffix: string)
    requires '@' !in suffix
    ensures WithoutSuffix(kind + "@" + ref, suffix) == kind + "@" + WithoutSuffix(ref, suffix)
  {
    var full := kind + "@" + ref;
    assert full[|kind|] == '@';
    if |ref| < |suffix| <= |full| {
      assert full[|full| - |suffix|..][|kind| - (|full| - |suffix|)] == '@';
    }
    if |suffix| <= |ref| {
      assert full[|full| - |suffix|..] == ref[|ref| - |suffix|..];
      assert full[..|full| - |suffix|] == kind + "@" + ref[..|ref| - |suffix|];
    }
  }

  lemma {:induction false} AfterKind(kind: string, ref: string)
    ensures AfterLast(kind + "@" + ref, '@') == AfterLast(ref, '@')
  {
    var full := kind + "@" + ref;
    assert full[|kind|] == '@';
    if kind == "" {
      assert full[1..] == ref;
    } else {
      AfterKind(kind[1..], ref);
      assert full[1..] == kind[1..] + "@" + ref;
    }
  }

  /** A path that has a page of its own resolves to it, whatever kind, `!` or `()` it is written with. */
  lemma IndexedPathResolves(path: string, index: map<string, Target>, enclosing: string, called: bool, isMacro: bool)
    requires path in index && path != ""
    requires '@' !in path && !EndsWith(path, "()") && !EndsWith(path, "!")
    requires !StartsWith(path, "Self::")
    ensures Resolve(path + (if isMacro then "!" else "") + (if called then "()" else ""), index, enclosing)
         == Some(index[path])
  {
    hide StartsWith, EndsWith, WithoutSuffix;
    MarksAreDropped(path, called, isMacro);
  }

  lemma MarksAreDropped(path: string, called: bool, isMacro: bool)
    requires !EndsWith(path, "()") && !EndsWith(path, "!")
    ensures var marked := path + (if isMacro then "!" else "") + (if called then "()" else "");
            WithoutSuffix(WithoutSuffix(marked, "()"), "!") == path
  {
    var marked := path + if isMacro then "!" else "";
    if isMacro {
      if 2 <= |marked| {
        assert marked[|marked| - 2..][1] == '!';
      }
      SuffixDropped(path, "!");
    } else {
      assert marked == path;
    }
    if called {
      SuffixDropped(marked, "()");
    } else {
      assert marked + "" == marked;
    }
  }

  lemma SuffixDropped(s: string, suffix: string)
    ensures WithoutSuffix(s + suffix, suffix) == s
  {
    assert (s + suffix)[|s|..] == suffix;
  }

  /** A member that has no entry resolves to its owning item. */
  lemma MemberResolvesToOwner(owner: string, member: string, index: map<string, Target>)
    requires owner in index && owner != ""
    requires ':' !in member
    requires owner + "::" + member !in index
    ensures Lookup(owner + "::" + member, index) == Some(index[owner])
  {
    var path := owner + "::" + member;
    assert SeparatorAt(path, |owner|);
    var cut := LastSeparator(path).value;
    assert forall j :: |owner| + 2 <= j < |path| ==> path[j] in member;
    assert path[..cut] == owner;
  }

  /** A reference without a kind or a mark stands for itself, or for an item of the enclosing one. */
  lemma PathOfPlain(ref: string, index: map<string, Target>, enclosing: string)
    requires '@' !in ref && !EndsWith(ref, "()") && !EndsWith(ref, "!")
    ensures var owned := if StartsWith(ref, "Self::") && enclosing != "" then enclosing + "::" + ref[6..] else ref;
            PathOf(ref, index, enclosing) == Peeled(owned, index)
  {
    hide StartsWith, EndsWith, WithoutPrefix;
  }

  function Peeled(ref: string, index: map<string, Target>): string {
    WithoutPrefix(WithoutPrefix(WithoutPrefix(ref, "crate::", index), "self::", index), "super::", index)
  }

  /** `crate::`, `self::` or `super::` before an indexed path changes nothing. */
  lemma PrefixIsDropped(prefix: string, path: string, index: map<string, Target>, enclosing: string)
    requires prefix == "crate::" || prefix == "self::" || prefix == "super::"
    requires path in index && prefix + path !in index && path != ""
    requires '@' !in path && !EndsWith(path, "()") && !EndsWith(path, "!")
    ensures Resolve(prefix + path, index, enclosing) == Some(index[path])
  {
    hide EndsWith, PathOf, Peeled;
    NoMark(prefix, path, "()");
    NoMark(prefix, path, "!");
    assert (prefix + path)[0] != "Self::"[0];
    PathOfPlain(prefix + path, index, enclosing);
    PeelOne(prefix, path, index);
  }

  /** The one of the three prefixes that is there goes; the path behind it is indexed, so no more does. */
  lemma PeelOne(prefix: string, path: string, index: map<string, Target>)
    requires prefix == "crate::" || prefix == "self::" || prefix == "super::"
    requires path in index && prefix + path !in index
    ensures Peeled(prefix + path, index) == path
  {
    var ref := prefix + path;
    assert ref[..|prefix|] == prefix && ref[|prefix|..] == path;
    assert ref[0] == prefix[0] && ref[1] == prefix[1];
  }

  lemma NoMark(prefix: string, path: string, suffix: string)
    requires path != "" && !EndsWith(path, suffix) && (suffix == "()" || suffix == "!")
    requires prefix != "" && prefix[|prefix| - 1] == ':'
    ensures !EndsWith(prefix + path, suffix)
  {
    var ref := prefix + path;
    if |suffix| <= |path| {
      assert ref[|ref| - |suffix|..] == path[|path| - |suffix|..];
    } else {
      assert ref[|ref| - |suffix|..][0] == ':';
    }
  }

  /** `Self` is the enclosing item. */
  lemma SelfIsEnclosing(member: string, index: map<string, Target>, enclosing: string)
    requires enclosing != "" && enclosing + "::" + member in index
    requires '@' !in member && member != "" && !EndsWith(member, "()") && !EndsWith(member, "!")
    ensures Resolve("Self::" + member, index, enclosing) == Some(index[enclosing + "::" + member])
  {
    hide EndsWith, PathOf;
    var ref := "Self::" + member;
    NoMark("Self::", member, "()");
    NoMark("Self::", member, "!");
    assert ref[..6] == "Self::" && ref[6..] == member;
    PathOfPlain(ref, index, enclosing);
    assert enclosing + "::" + member != "";
  }
}
