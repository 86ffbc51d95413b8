/** The index that turns the paths in documentation prose into links. */
module DocIndex {
  import opened Wrappers

  /** A page and the anchor on it. */
  datatype Target = Target(file: string, anchor: string)

  datatype Registration = Registration(key: string, target: Target)

  // ----- what the index has to be -----

  /** `key` was registered, and only ever with `target`. */
  ghost predicate OnlyTarget(regs: seq<Registration>, key: string, target: Target) {
    && Registration(key, target) in regs
    && forall r <- regs | r.key == key :: r.target == target
  }

  ghost predicate Ambiguous(regs: seq<Registration>, key: string) {
    exists r <- regs, q <- regs :: r.key == key && q.key == key && r.target != q.target
  }

  ghost predicate IsIndexOf(index: map<string, Target>, regs: seq<Registration>) {
    && (forall key <- index :: OnlyTarget(regs, key, index[key]))
    && (forall key, target :: OnlyTarget(regs, key, target) ==> key in index)
  }

  /** The index does not depend on the order of the registrations, nor on their repetition. */
  lemma IndexIsOrderIndependent(index: map<string, Target>, regs: seq<Registration>,
                                index': map<string, Target>, regs': seq<Registration>)
    requires IsIndexOf(index, regs) && IsIndexOf(index', regs')
    requires forall r :: r in regs <==> r in regs'
    ensures index == index'
  {
    forall key
      ensures key in index <==> key in index'
      ensures key in index ==> index[key] == index'[key]
    {
      if key in index {
        assert OnlyTarget(regs', key, index[key]);
      }
      if key in index' {
        assert OnlyTarget(regs, key, index'[key]);
      }
    }
  }

  // ----- building it -----

  class IndexBuilder {
    var index: map<string, Target>
    var ambiguous: set<string>
    ghost var regs: seq<Registration>

    ghost predicate Valid()
      reads this
    {
      && IsIndexOf(index, regs)
      && forall key :: key in ambiguous <==> Ambiguous(regs, key)
    }

    constructor ()
      ensures Valid() && regs == []
    {
      index, ambiguous, regs := map[], {}, [];
    }

    method Register(key: string, target: Target)
      requires Valid()
      modifies this
      ensures Valid() && regs == old(regs) + [Registration(key, target)]
    {
      var r := Registration(key, target);
      OthersUnchanged(regs, r);
      KeyOfNext(regs, r);
      if key in index {
        assert OnlyTarget(regs, key, index[key]);
      }
      regs := regs + [r];
      if key in ambiguous {
        return;
      }
      if key in index && index[key] != target {
        index := index - {key};
        ambiguous := ambiguous + {key};
        return;
      }
      index := index[key := target];
    }
  }

  /** One more registration is nothing to the other keys. */
  lemma OthersUnchanged(regs: seq<Registration>, r: Registration)
    ensures forall key | key != r.key :: Ambiguous(regs + [r], key) <==> Ambiguous(regs, key)
    ensures forall key, target | key != r.key :: OnlyTarget(regs + [r], key, target) <==> OnlyTarget(regs, key, target)
  {
    assert forall q :: q in regs + [r] <==> q in regs || q == r;
  }

  /** The key registered keeps one target when it had none, or had that one. */
  lemma KeyOfNext(regs: seq<Registration>, r: Registration)
    ensures forall target :: OnlyTarget(regs + [r], r.key, target) ==> target == r.target
    ensures OnlyTarget(regs + [r], r.key, r.target) <==> !Ambiguous(regs + [r], r.key)
    ensures Ambiguous(regs, r.key) ==> Ambiguous(regs + [r], r.key)
    ensures forall target | OnlyTarget(regs, r.key, target) ::
              Ambiguous(regs + [r], r.key) <==> target != r.target
    ensures || Ambiguous(regs, r.key)
            || (exists target :: OnlyTarget(regs, r.key, target))
            || !Ambiguous(regs + [r], r.key)
  {
    var more := regs + [r];
    assert forall q :: q in more <==> q in regs || q == r;
    if q :| q in regs && q.key == r.key && !Ambiguous(regs, r.key) {
      assert OnlyTarget(regs, r.key, q.target);
    }
  }

  /** One item of the JSON the documentation tool writes. */
  datatype Entry = Entry(path: seq<string>, crateId: Option<int>, kind: Option<string>)

  const MODULE_LEVEL_KINDS: set<string> :=
    {"module", "struct", "enum", "trait", "function", "constant", "static", "type_alias", "macro", "union",
     "trait_alias"}

  predicate IsIndexed(e: Entry) {
    && 2 <= |e.path|
    && e.crateId == Some(0)
    && e.kind.Some?
    && e.kind.value in MODULE_LEVEL_KINDS
  }

  function Join(parts: seq<string>, separator: string): string {
    if parts == [] then "" else if |parts| == 1 then parts[0] else parts[0] + separator + Join(parts[1..], separator)
  }

  function LowerCase(c: char): char {
    if 'A' <= c <= 'Z' then 'a' + (c - 'A') else c
  }

  /** The anchor of an item: its name in lower case, with `-` for `_`. */
  function Slug(name: string): string {
    seq(|name|, i requires 0 <= i < |name| => if name[i] == '_' then '-' else LowerCase(name[i]))
  }

  function TargetOf(e: Entry): Target
    requires IsIndexed(e)
  {
    var parents := e.path[1..|e.path| - 1];
    if e.kind.value == "module" then Target(Join(e.path[1..], "/") + "/index.md", "")
    else Target(if parents == [] then "index.md" else Join(parents + ["index.md"], "/"), Slug(e.path[|e.path| - 1]))
  }

  /** An anchor has a character for each of the name's: `-` for `_`, and small letters for capital ones. */
  lemma SlugAt(name: string, i: nat)
    requires i < |name|
    ensures |Slug(name)| == |name|
    ensures name[i] == '_' ==> Slug(name)[i] == '-'
    ensures 'A' <= name[i] <= 'Z' ==> 'a' <= Slug(name)[i] <= 'z' && Slug(name)[i] - 'a' == name[i] - 'A'
    ensures name[i] != '_' && !('A' <= name[i] <= 'Z') ==> Slug(name)[i] == name[i]
  {
  }

  /** Every item of a module is on the module's page, under its own anchor; a module is a page of its own. */
  lemma PageOfItem(crate: string, outer: string, inner: string, name: string, kind: string)
    requires kind in MODULE_LEVEL_KINDS
    ensures var page := if kind == "module" then outer + "/" + inner + "/" + name + "/index.md"
                        else outer + "/" + inner + "/index.md";
            var anchor := if kind == "module" then "" else Slug(name);
            TargetOf(Entry([crate, outer, inner, name], Some(0), Some(kind))) == Target(page, anchor)
    ensures var page := if kind == "module" then name + "/index.md" else "index.md";
            var anchor := if kind == "module" then "" else Slug(name);
            TargetOf(Entry([crate, name], Some(0), Some(kind))) == Target(page, anchor)
    ensures NamesOf(Entry([crate, outer, name], Some(0), Some(kind)))
         == [outer + "::" + name, "crate::" + (outer + "::" + name), crate + "::" + (outer + "::" + name), name]
  {
    JoinTwo(outer, name, "::");
    JoinThree(crate, outer, name, "::");
    JoinThree(outer, inner, name, "/");
    JoinThree(outer, inner, "index.md", "/");
    assert [crate, outer, inner, name][1..] == [outer, inner, name];
    assert [crate, outer, inner, name][1..3] + ["index.md"] == [outer, inner, "index.md"];
    assert [crate, outer, name][1..] == [outer, name] && [crate, name][1..] == [name] && [crate, name][1..1] == [];
    assert "/" + "index.md" == "/index.md";
    assert outer + "/" + (inner + "/" + name) + "/index.md" == outer + "/" + inner + "/" + name + "/index.md";
    assert outer + "/" + (inner + "/" + "index.md") == outer + "/" + inner + "/index.md";
  }

  lemma JoinTwo(a: string, b: string, separator: string)
    ensures Join([a, b], separator) == a + separator + b
  {
    assert [a, b][1..] == [b];
  }

  lemma JoinThree(a: string, b: string, c: string, separator: string)
    ensures Join([a, b, c], separator) == a + separator + (b + separator + c)
  {
    assert [a, b, c][1..] == [b, c];
    JoinTwo(b, c, separator);
  }

  /** The four names an item is looked up by. */
  function NamesOf(e: Entry): seq<string>
    requires IsIndexed(e)
  {
    var qualified := Join(e.path[1..], "::");
    [qualified, "crate::" + qualified, Join(e.path, "::"), e.path[|e.path| - 1]]
  }

  function RegistrationsFor(e: Entry): seq<Registration> {
    if !IsIndexed(e) then []
    else
      var names, target := NamesOf(e), TargetOf(e);
      [Registration(names[0], target), Registration(names[1], target),
       Registration(names[2], target), Registration(names[3], target)]
  }

  function RegistrationsOf(entries: seq<Entry>): seq<Registration> {
    if entries == [] then []
    else RegistrationsOf(entries[..|entries| - 1]) + RegistrationsFor(entries[|entries| - 1])
  }

  function Concat(docs: seq<seq<Entry>>): seq<Entry> {
    if docs == [] then [] else Concat(docs[..|docs| - 1]) + docs[|docs| - 1]
  }

  method BuildItemIndex(docs: seq<seq<Entry>>) returns (index: map<string, Target>)
    ensures IsIndexOf(index, RegistrationsOf(Concat(docs)))
  {
    hide RegistrationsFor, IsIndexOf;
    var builder := new IndexBuilder();
    for d := 0 to |docs|
      invariant fresh(builder)
      invariant builder.Valid() && builder.regs == RegistrationsOf(Concat(docs[..d]))
    {
      ghost var before := Concat(docs[..d]);
      assert docs[..d + 1][..d] == docs[..d];
      assert before + docs[d][..0] == before;
      for i := 0 to |docs[d]|
        invariant fresh(builder)
        invariant builder.Valid() && builder.regs == RegistrationsOf(before + docs[d][..i])
      {
        RegisterEntry(builder, docs[d][i]);
        OneMoreEntry(before + docs[d][..i], docs[d][i]);
        assert before + docs[d][..i + 1] == before + docs[d][..i] + [docs[d][i]];
      }
      assert docs[d][..|docs[d]|] == docs[d];
    }
    assert docs[..|docs|] == docs;
    index := builder.index;
  }

  lemma OneMoreEntry(entries: seq<Entry>, e: Entry)
    ensures RegistrationsOf(entries + [e]) == RegistrationsOf(entries) + RegistrationsFor(e)
  {
    hide RegistrationsFor;
    assert (entries + [e])[..|entries|] == entries;
  }

  method RegisterEntry(builder: IndexBuilder, e: Entry)
    requires builder.Valid()
    modifies builder
    ensures builder.Valid() && builder.regs == old(builder.regs) + RegistrationsFor(e)
  {
    hide TargetOf, Slug, Join, IsIndexOf;
    if |e.path| < 2 || e.crateId != Some(0) || e.kind.None? || e.kind.value !in MODULE_LEVEL_KINDS {
      return;
    }
    var target := TargetOf(e);
    var qualified := Join(e.path[1..], "::");
    builder.Register(qualified, target);
    builder.Register("crate::" + qualified, target);
    builder.Register(Join(e.path, "::"), target);
    builder.Register(e.path[|e.path| - 1], target);
  }

  lemma RegisteredForIff(e: Entry, r: Registration)
    ensures r in RegistrationsFor(e) <==> IsIndexed(e) && r.target == TargetOf(e) && r.key in NamesOf(e)
  {
    hide IsIndexed, TargetOf, Join;
  }

  lemma {:induction false} RegisteredIff(entries: seq<Entry>, r: Registration)
    ensures r in RegistrationsOf(entries) <==>
            exists e <- entries :: IsIndexed(e) && r.target == TargetOf(e) && r.key in NamesOf(e)
  {
    hide IsIndexed, TargetOf, NamesOf, RegistrationsFor;
    if entries != [] {
      var e := entries[|entries| - 1];
      RegisteredIff(entries[..|entries| - 1], r);
      assert entries == entries[..|entries| - 1] + [e];
      RegisteredForIff(e, r);
    }
  }

  /** Whatever the order of the crates' files and of the items in them, and however often an item
      is listed, the index is the same. */
  lemma ItemOrderIsIrrelevant(entries: seq<Entry>, index: map<string, Target>,
                              entries': seq<Entry>, index': map<string, Target>)
    requires IsIndexOf(index, RegistrationsOf(entries)) && IsIndexOf(index', RegistrationsOf(entries'))
    requires forall e :: e in entries <==> e in entries'
    ensures index == index'
  {
    hide IsIndexed, TargetOf, NamesOf, RegistrationsOf, IsIndexOf;
    forall r
      ensures r in RegistrationsOf(entries) <==> r in RegistrationsOf(entries')
    {
      RegisteredIff(entries, r);
      RegisteredIff(entries', r);
    }
    IndexIsOrderIndependent(index, RegistrationsOf(entries), index', RegistrationsOf(entries'));
  }

  /** A short name leads to an item exactly when every item of that name is on that target. */
  lemma NameLeadsTo(entries: seq<Entry>, index: map<string, Target>, name: string, e: Entry)
    requires IsIndexOf(index, RegistrationsOf(entries))
    requires e in entries && IsIndexed(e) && name in NamesOf(e)
    ensures name in index && index[name] == TargetOf(e) <==>
            forall o <- entries | IsIndexed(o) && name in NamesOf(o) :: TargetOf(o) == TargetOf(e)
    ensures name in index ==> index[name] == TargetOf(e)
  {
    hide IsIndexed, TargetOf, NamesOf, RegistrationsOf;
    var regs := RegistrationsOf(entries);
    RegisteredIff(entries, Registration(name, TargetOf(e)));
    assert Registration(name, TargetOf(e)) in regs;
    forall o | o in entries && IsIndexed(o) && name in NamesOf(o)
      ensures Registration(name, TargetOf(o)) in regs
    {
      RegisteredIff(entries, Registration(name, TargetOf(o)));
    }
    forall r | r in regs
      ensures exists o <- entries :: IsIndexed(o) && r.target == TargetOf(o) && r.key in NamesOf(o)
    {
      RegisteredIff(entries, r);
    }
    if forall o <- entries | IsIndexed(o) && name in NamesOf(o) :: TargetOf(o) == TargetOf(e) {
      assert OnlyTarget(regs, name, TargetOf(e));
    }
  }

  /** Another crate's items, the members of an item and a crate itself have no name in the index. */
  lemma OthersAreNotRegistered(e: Entry)
    requires e.crateId != Some(0) || |e.path| <= 1 || e.kind.None?
             || e.kind.value == "variant" || e.kind.value == "assoc_type" || e.kind.value == "impl"
    ensures RegistrationsFor(e) == []
  {
  }

  /** An item of the crate's own has four, whatever its kind: a module, a type, a function, a constant or a macro. */
  lemma OwnItemsAreRegistered(e: Entry)
    requires e.crateId == Some(0) && |e.path| > 1 && e.kind.Some?
    requires var kind := e.kind.value;
             kind == "module" || kind == "struct" || kind == "enum" || kind == "trait" || kind == "function"
             || kind == "constant" || kind == "static" || kind == "type_alias" || kind == "macro" || kind == "union"
             || kind == "trait_alias"
    ensures |RegistrationsFor(e)| == 4
  {
    hide TargetOf, Join;
  }
}
