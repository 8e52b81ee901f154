/** soap_set_attr in nPVR/stdsoap2.cpp: the list of attributes of the next start tag, which in canonical
    mode is kept in the order of section 2.2 of Canonical XML 1.0. */
module Attributes {
  import opened Bytes

  /** struct soap_attribute; ns is the URI its prefix is known to stand for, size that of the value buffer. */
  datatype Attr = Attr(name: string, ns: Option<string>, value: Option<string>, size: nat, visible: int)

  /** strcmp(a, b) < 0 */
  predicate Less(a: string, b: string) {
    b != "" && (a == "" || a[0] < b[0] || (a[0] == b[0] && Less(a[1..], b[1..])))
  }

  lemma {:induction false} LessTotal(a: string, b: string)
    ensures a == b || Less(a, b) || Less(b, a)
    ensures !(Less(a, b) && Less(b, a)) && !Less(a, a)
  {
    if a != "" && b != "" && a[0] == b[0] {
      LessTotal(a[1..], b[1..]);
      assert a == [a[0]] + a[1..] && b == [b[0]] + b[1..];
    }
    if a != "" {
      LessTotal(a[1..], a[1..]);
    }
  }

  lemma {:induction false} LessTransitive(a: string, b: string, c: string)
    requires Less(a, b) && Less(b, c)
    ensures Less(a, c)
  {
    if a != "" && a[0] == b[0] == c[0] {
      LessTransitive(a[1..], b[1..], c[1..]);
    }
  }

  /** strncmp of the first |p| chars */
  predicate StartsWith(s: string, p: string) {
    p <= s
  }

  lemma {:induction false} LessBehind(p: string, a: string, b: string)
    ensures Less(p + a, p + b) <==> Less(a, b)
  {
    if p == "" {
      assert p + a == a && p + b == b;
    } else {
      assert (p + a)[1..] == p[1..] + a && (p + b)[1..] == p[1..] + b;
      LessBehind(p[1..], a, b);
    }
  }

  predicate IsDecl(name: string) {
    StartsWith(name, "xmlns")
  }

  /** strchr(name, ':') as an index, or the length when there is none. */
  function Colon(name: string): (k: nat)
    ensures k <= |name| && (k < |name| <==> ':' in name)
    ensures ':' !in name[..k] && (k < |name| ==> name[k] == ':')
  {
    if name == "" || name[0] == ':' then 0
    else
      assert name == [name[0]] + name[1..];
      var k := 1 + Colon(name[1..]);
      assert name[..k] == [name[0]] + name[1..][..k - 1];
      k
  }

  function PrefixOf(name: string): string {
    name[..Colon(name)]
  }

  /** Whether an attribute declares the prefix. */
  predicate Declares(a: Attr, prefix: string) {
    a.name == "xmlns:" + prefix
  }

  /** Where a declaration goes: before the first attribute that is none, or has a greater name. */
  function FindDecl(l: seq<Attr>, name: string, i: nat): (k: nat)
    requires IsDecl(name) && i <= |l|
    ensures i <= k <= |l|
    decreases |l| - i
  {
    if i == |l| || !IsDecl(l[i].name) || Less(name[5..], l[i].name[5..]) then i else FindDecl(l, name, i + 1)
  }

  /** Where an attribute without a prefix goes. */
  function FindPlain(l: seq<Attr>, name: string, i: nat): (k: nat)
    requires i <= |l|
    ensures i <= k <= |l|
    decreases |l| - i
  {
    if i == |l| || (!IsDecl(l[i].name) && (l[i].ns.Some? || Less(name, l[i].name))) then i else FindPlain(l, name, i + 1)
  }

  datatype Spot = Spot(at: nat, ns: Option<string>)

  /** Where an attribute with a prefix goes, and what its prefix stands for; ns is what is known of that so far. */
  function FindPrefixed(l: seq<Attr>, name: string, i: nat, ns: Option<string>): (s: Spot)
    requires i <= |l|
    ensures i <= s.at <= |l|
    decreases |l| - i
  {
    if i == |l| then Spot(i, ns)
    else if Declares(l[i], PrefixOf(name)) then FindPrefixed(l, name, i + 1, if ns.None? then l[i].ns else ns)
    else if Follows(l[i], name, ns) then Spot(i, ns)
    else FindPrefixed(l, name, i + 1, ns)
  }

  predicate Follows(a: Attr, name: string, ns: Option<string>) {
    && !IsDecl(a.name) && a.ns.Some? && ns.Some?
    && (Less(ns.value, a.ns.value) || (a.ns == ns && Less(name, a.name)))
  }

  function Place(l: seq<Attr>, name: string): (s: Spot)
    ensures s.at <= |l|
  {
    if IsDecl(name) then Spot(FindDecl(l, name, 0), None)
    else if ':' !in name then Spot(FindPlain(l, name, 0), None)
    else FindPrefixed(l, name, 0, None)
  }

  predicate Has(l: seq<Attr>, name: string) {
    exists i :: 0 <= i < |l| && l[i].name == name
  }

  function IndexOf(l: seq<Attr>, name: string): (i: nat)
    requires Has(l, name)
    ensures i < |l| && l[i].name == name && forall j :: 0 <= j < i ==> l[j].name != name
  {
    if l[0].name == name then 0
    else
      assert Has(l[1..], name) by {
        var k :| 0 <= k < |l| && l[k].name == name;
        assert l[1..][k - 1].name == name;
      }
      1 + IndexOf(l[1..], name)
  }

  /** A value longer than the buffer replaces the buffer, and the namespace is forgotten. */
  predicate Reallocates(a: Attr, value: Option<string>) {
    value.Some? && a.value.Some? && a.size <= |value.value|
  }

  /** The attribute once the value has been stored. */
  function Stored(a: Attr, value: Option<string>): Attr {
    var b := if Reallocates(a, value) then a.(value := None, ns := None) else a;
    if value.None? then b.(visible := 1)
    else
      b.(size := if b.value.None? then |value.value| + 1 else b.size, value := value,
         ns := if StartsWith(a.name, "xmlns:") then value else b.ns, visible := 2)
  }

  /** The list after soap_set_attr. */
  function SetAttr(l: seq<Attr>, canonical: bool, name: string, value: Option<string>): seq<Attr> {
    if Has(l, name) then l[IndexOf(l, name) := Stored(l[IndexOf(l, name)], value)]
    else if canonical then
      var s := Place(l, name);
      l[..s.at] + [Stored(Attr(name, s.ns, None, 0, 0), value)] + l[s.at..]
    else [Stored(Attr(name, None, None, 0, 0), value)] + l
  }

  class AttrList {
    var attributes: seq<Attr>
    var canonical: bool

    constructor (canonical: bool)
      ensures this.canonical == canonical && attributes == []
    {
      this.canonical, attributes := canonical, [];
    }

    method Find(name: string) returns (i: nat)
      ensures i <= |attributes|
      ensures if Has(attributes, name) then i == IndexOf(attributes, name) else i == |attributes|
    {
      i := 0;
      while i < |attributes|
        invariant 0 <= i <= |attributes|
        invariant forall j :: 0 <= j < i ==> attributes[j].name != name
      {
        if attributes[i].name == name {
          FirstIndex(attributes, name, i);
          return;
        }
        i := i + 1;
      }
    }

    /** The three loops that look for a place in canonical order. */
    method FindPlace(name: string) returns (i: nat, ns: Option<string>)
      ensures Spot(i, ns) == Place(attributes, name)
    {
      i, ns := 0, None;
      var colon := ':' in name;
      if IsDecl(name) {
        while i < |attributes| && IsDecl(attributes[i].name) && !Less(name[5..], attributes[i].name[5..])
          invariant i <= |attributes| && FindDecl(attributes, name, 0) == FindDecl(attributes, name, i)
        {
          i := i + 1;
        }
      } else if !colon {
        while i < |attributes| && (IsDecl(attributes[i].name) || (attributes[i].ns.None? && !Less(name, attributes[i].name)))
          invariant i <= |attributes| && FindPlain(attributes, name, 0) == FindPlain(attributes, name, i)
        {
          i := i + 1;
        }
      } else {
        while i < |attributes|
          invariant i <= |attributes|
          invariant FindPrefixed(attributes, name, 0, None) == FindPrefixed(attributes, name, i, ns)
        {
          if Declares(attributes[i], PrefixOf(name)) {
            if ns.None? {
              ns := attributes[i].ns;
            }
          } else if Follows(attributes[i], name, ns) {
            return;
          }
          i := i + 1;
        }
      }
    }

    /** soap_set_attr */
    method Set(name: string, value: Option<string>)
      modifies this`attributes
      ensures attributes == SetAttr(old(attributes), canonical, name, value)
    {
      var i := Find(name);
      if i < |attributes| {
        attributes := attributes[i := Stored(attributes[i], value)];
      } else if canonical {
        var at, ns := FindPlace(name);
        attributes := attributes[..at] + [Stored(Attr(name, ns, None, 0, 0), value)] + attributes[at..];
      } else {
        attributes := [Stored(Attr(name, None, None, 0, 0), value)] + attributes;
      }
    }
  }

  lemma FirstIndex(l: seq<Attr>, name: string, i: nat)
    requires i < |l| && l[i].name == name && forall j :: 0 <= j < i ==> l[j].name != name
    ensures Has(l, name) && IndexOf(l, name) == i
  {
    var k := IndexOf(l, name);
    assert !(k < i) && !(i < k);
  }

  /** Declarations, attributes without a prefix, attributes with one. */
  function Class(name: string): nat {
    if IsDecl(name) then 0 else if ':' !in name then 1 else 2
  }

  /** Declarations by name, then unprefixed attributes by name, then prefixed ones by URI and name. */
  predicate Before(a: Attr, b: Attr) {
    || Class(a.name) < Class(b.name)
    || (Class(a.name) == Class(b.name) && (if Class(a.name) == 2 then UriBefore(a, b) else Less(a.name, b.name)))
  }

  predicate UriBefore(a: Attr, b: Attr) {
    a.ns.Some? && b.ns.Some? && (Less(a.ns.value, b.ns.value) || (a.ns == b.ns && Less(a.name, b.name)))
  }

  ghost predicate Sorted(l: seq<Attr>) {
    forall i, j :: 0 <= i < j < |l| ==> Before(l[i], l[j])
  }

  ghost predicate Unique(l: seq<Attr>) {
    forall i, j :: 0 <= i < j < |l| ==> l[i].name != l[j].name
  }

  /** What a prefix stands for. */
  function UriFor(l: seq<Attr>, prefix: string): Option<string> {
    if Has(l, "xmlns:" + prefix) then l[IndexOf(l, "xmlns:" + prefix)].value else None
  }

  /** Prefixed attributes know the URI of their prefix, and unprefixed ones have none. */
  ghost predicate NsRight(l: seq<Attr>, a: Attr) {
    && (Class(a.name) == 2 ==> a.ns.Some? && a.ns == UriFor(l, PrefixOf(a.name)))
    && (Class(a.name) == 1 ==> a.ns.None?)
    && (StartsWith(a.name, "xmlns:") ==> a.ns == a.value)
    && (a.value.Some? ==> a.size > |a.value.value|)
  }

  ghost predicate Canonical(l: seq<Attr>) {
    Sorted(l) && Unique(l) && forall i :: 0 <= i < |l| ==> NsRight(l, l[i])
  }

  /** A prefix is declared before it is used, and not declared again to stand for something else. */
  ghost predicate Declared(l: seq<Attr>, name: string, value: Option<string>) {
    && (Class(name) == 2 && !Has(l, name) ==> UriFor(l, PrefixOf(name)).Some?)
    && (IsDecl(name) && Has(l, name) && value.Some? ==>
          var a := l[IndexOf(l, name)]; a.value.None? || a.value == value)
  }

  /** A prefixed attribute gets a value that does not fit in its buffer. */
  predicate Forgets(l: seq<Attr>, name: string, value: Option<string>) {
    Has(l, name) && Class(name) == 2 && Reallocates(l[IndexOf(l, name)], value)
  }

  lemma {:induction false} DeclScan(l: seq<Attr>, name: string, i: nat)
    requires IsDecl(name) && i <= |l| && forall j :: 0 <= j < |l| ==> l[j].name != name
    ensures forall j :: i <= j < FindDecl(l, name, i) ==> IsDecl(l[j].name) && Less(l[j].name, name)
    ensures
      var k := FindDecl(l, name, i);
      k < |l| ==> !IsDecl(l[k].name) || Less(name, l[k].name)
    decreases |l| - i
  {
    if i < |l| && IsDecl(l[i].name) {
      assert name == "xmlns" + name[5..] && l[i].name == "xmlns" + l[i].name[5..];
      LessBehind("xmlns", name[5..], l[i].name[5..]);
      LessTotal(name, l[i].name);
      if !Less(name, l[i].name) {
        DeclScan(l, name, i + 1);
      }
    }
  }

  lemma {:induction false} PlainScan(l: seq<Attr>, name: string, i: nat)
    requires Class(name) == 1 && i <= |l| && (forall j :: 0 <= j < |l| ==> l[j].name != name && NsRight(l, l[j]))
    ensures forall j :: i <= j < FindPlain(l, name, i) ==>
              IsDecl(l[j].name) || (Class(l[j].name) == 1 && Less(l[j].name, name))
    ensures
      var k := FindPlain(l, name, i);
      k < |l| ==> Class(l[k].name) == 2 || (Class(l[k].name) == 1 && Less(name, l[k].name))
    decreases |l| - i
  {
    if i < |l| && (IsDecl(l[i].name) || (l[i].ns.None? && !Less(name, l[i].name))) {
      LessTotal(name, l[i].name);
      assert NsRight(l, l[i]);
      PlainScan(l, name, i + 1);
    } else if i < |l| {
      assert NsRight(l, l[i]);
    }
  }

  /** An attribute with another name either follows a or comes before it. */
  ghost predicate Comparable(a: Attr, x: Attr) {
    && (Follows(x, a.name, a.ns) ==> Class(x.name) == 2 && Before(a, x))
    && (!Follows(x, a.name, a.ns) ==> Before(x, a))
  }

  lemma FollowsIsBefore(l: seq<Attr>, a: Attr, x: Attr)
    requires Class(a.name) == 2 && a.ns.Some? && x.name != a.name && NsRight(l, x)
    ensures Comparable(a, x)
  {
    LessTotal(a.name, x.name);
    if x.ns.Some? {
      LessTotal(a.ns.value, x.ns.value);
    }
  }

  /** d is where the prefix is declared. */
  lemma {:induction false} PrefixedScan(l: seq<Attr>, a: Attr, d: nat, i: nat, ns: Option<string>)
    requires d < |l| && l[d].ns == a.ns && a.ns.Some? && i <= |l| && ns == (if d < i then a.ns else None)
    requires forall j :: 0 <= j < |l| ==> (Declares(l[j], PrefixOf(a.name)) <==> j == d)
    requires forall j {:trigger Comparable(a, l[j])} :: 0 <= j < |l| ==> Comparable(a, l[j])
    requires forall j :: 0 <= j <= d ==> Before(l[j], a)
    ensures
      var s := FindPrefixed(l, a.name, i, ns);
      && s.ns == a.ns && (forall j :: i <= j < s.at ==> Before(l[j], a))
      && (s.at < |l| ==> Before(a, l[s.at]))
    decreases |l| - i
  {
    if i < |l| {
      assert Comparable(a, l[i]);
      if i == d {
        PrefixedScan(l, a, d, i + 1, a.ns);
      } else if !Follows(l[i], a.name, ns) {
        PrefixedScan(l, a, d, i + 1, ns);
      }
    }
  }

  ghost function InsertAt(l: seq<Attr>, k: nat, a: Attr): seq<Attr>
    requires k <= |l|
  {
    l[..k] + [a] + l[k..]
  }

  lemma InsertSorted(l: seq<Attr>, k: nat, a: Attr)
    requires Sorted(l) && k <= |l|
    requires forall j :: 0 <= j < k ==> Before(l[j], a)
    requires forall j :: k <= j < |l| ==> Before(a, l[j])
    ensures Sorted(InsertAt(l, k, a))
  {
    var m := InsertAt(l, k, a);
    forall i, j | 0 <= i < j < |m|
      ensures Before(m[i], m[j])
    {
      assert m[i] == (if i < k then l[i] else if i == k then a else l[i - 1]);
      assert m[j] == (if j < k then l[j] else if j == k then a else l[j - 1]);
    }
  }

  lemma BeforeTransitive(a: Attr, b: Attr, c: Attr)
    requires Before(a, b) && Before(b, c)
    ensures Before(a, c)
  {
    if Class(a.name) == Class(b.name) == Class(c.name) {
      if Class(a.name) == 2 {
        if Less(a.ns.value, b.ns.value) && Less(b.ns.value, c.ns.value) {
          LessTransitive(a.ns.value, b.ns.value, c.ns.value);
        } else if a.ns == b.ns == c.ns {
          LessTransitive(a.name, b.name, c.name);
        }
      } else {
        LessTransitive(a.name, b.name, c.name);
      }
    }
  }

  /** A new attribute that comes before the one at k comes before all those from k on. */
  lemma BeforeRest(l: seq<Attr>, k: nat, a: Attr)
    requires Sorted(l) && k < |l| && Before(a, l[k])
    ensures forall j :: k <= j < |l| ==> Before(a, l[j])
  {
    forall j | k <= j < |l|
      ensures Before(a, l[j])
    {
      if j > k {
        BeforeTransitive(a, l[k], l[j]);
      }
    }
  }

  ghost function NewAttr(l: seq<Attr>, name: string, value: Option<string>): Attr {
    Stored(Attr(name, Place(l, name).ns, None, 0, 0), value)
  }

  /** A new attribute goes where the order wants it. */
  lemma NewInPlace(l: seq<Attr>, name: string, value: Option<string>)
    requires Canonical(l) && !Has(l, name) && Declared(l, name, value)
    ensures
      var a := NewAttr(l, name, value);
      && (forall j :: 0 <= j < Place(l, name).at ==> Before(l[j], a))
      && (forall j :: Place(l, name).at <= j < |l| ==> Before(a, l[j]))
      && (Class(name) == 2 ==> a.ns == UriFor(l, PrefixOf(name)))
  {
    var a, k := NewAttr(l, name, value), Place(l, name).at;
    assert forall j :: 0 <= j < |l| ==> l[j].name != name && NsRight(l, l[j]);
    if Class(name) == 0 {
      DeclScan(l, name, 0);
    } else if Class(name) == 1 {
      PlainScan(l, name, 0);
    } else {
      var d := IndexOf(l, "xmlns:" + PrefixOf(name));
      DeclaredFirst(l, d);
      assert NsRight(l, l[d]);
      assert Stored(Attr(name, l[d].ns, None, 0, 0), value).ns == l[d].ns;
      var b := Attr(name, l[d].ns, a.value, a.size, a.visible);
      forall j | 0 <= j < |l|
        ensures Comparable(b, l[j])
      {
        FollowsIsBefore(l, b, l[j]);
      }
      PrefixedScan(l, b, d, 0, None);
      assert a == b;
    }
    if k < |l| {
      BeforeRest(l, k, a);
    }
  }

  lemma DeclaredFirst(l: seq<Attr>, d: nat)
    requires Sorted(l) && d < |l| && IsDecl(l[d].name)
    ensures forall j :: 0 <= j <= d ==> Class(l[j].name) == 0
  {
    forall j | 0 <= j <= d
      ensures Class(l[j].name) == 0
    {
      assert j < d ==> Before(l[j], l[d]);
    }
  }

  lemma UriIs(l: seq<Attr>, prefix: string, d: nat)
    requires Unique(l) && d < |l| && Declares(l[d], prefix)
    ensures UriFor(l, prefix) == l[d].value
  {
    var i := IndexOf(l, "xmlns:" + prefix);
    assert !(i < d) && !(d < i);
  }

  lemma InsertHas(l: seq<Attr>, k: nat, a: Attr)
    requires k <= |l|
    ensures forall n :: Has(InsertAt(l, k, a), n) <==> Has(l, n) || n == a.name
  {
    var m := InsertAt(l, k, a);
    forall n | Has(l, n) || n == a.name
      ensures Has(m, n)
    {
      if n == a.name {
        assert m[k].name == n;
      } else {
        var i := IndexOf(l, n);
        assert m[if i < k then i else i + 1].name == n;
      }
    }
    forall n | Has(m, n)
      ensures Has(l, n) || n == a.name
    {
      var i := IndexOf(m, n);
      if i != k {
        assert l[if i < k then i else i - 1].name == n;
      }
    }
  }

  lemma InsertUnique(l: seq<Attr>, k: nat, a: Attr)
    requires Unique(l) && k <= |l| && !Has(l, a.name)
    ensures Unique(InsertAt(l, k, a))
    ensures forall n :: Has(InsertAt(l, k, a), n) <==> Has(l, n) || n == a.name
  {
    var m := InsertAt(l, k, a);
    InsertHas(l, k, a);
    forall i, j | 0 <= i < j < |m|
      ensures m[i].name != m[j].name
    {
      assert m[i] == (if i < k then l[i] else if i == k then a else l[i - 1]);
      assert m[j] == (if j < k then l[j] else if j == k then a else l[j - 1]);
    }
  }

  lemma InsertKeepsUri(l: seq<Attr>, k: nat, a: Attr, p: string)
    requires Unique(l) && k <= |l| && !Has(l, a.name) && UriFor(l, p).Some?
    ensures UriFor(InsertAt(l, k, a), p) == UriFor(l, p)
  {
    InsertUnique(l, k, a);
    var i := IndexOf(l, "xmlns:" + p);
    UriIs(InsertAt(l, k, a), p, if i < k then i else i + 1);
  }

  lemma InsertKeepsNs(l: seq<Attr>, k: nat, a: Attr, x: Attr)
    requires Unique(l) && k <= |l| && !Has(l, a.name) && NsRight(l, x)
    ensures NsRight(InsertAt(l, k, a), x)
  {
    if Class(x.name) == 2 {
      InsertKeepsUri(l, k, a, PrefixOf(x.name));
    }
  }

  lemma NewNsRight(l: seq<Attr>, name: string, value: Option<string>)
    requires Unique(l) && !Has(l, name)
    requires Class(name) == 2 ==> NewAttr(l, name, value).ns == UriFor(l, PrefixOf(name)) && UriFor(l, PrefixOf(name)).Some?
    ensures NsRight(InsertAt(l, Place(l, name).at, NewAttr(l, name, value)), NewAttr(l, name, value))
  {
    PlainHasNoNs(l, name);
    if Class(name) == 2 {
      InsertKeepsUri(l, Place(l, name).at, NewAttr(l, name, value), PrefixOf(name));
    }
  }

  /** A new attribute keeps the list in order. */
  lemma NewKeepsCanonical(l: seq<Attr>, name: string, value: Option<string>)
    requires Canonical(l) && !Has(l, name) && Declared(l, name, value)
    ensures Canonical(SetAttr(l, true, name, value))
  {
    var a, k := NewAttr(l, name, value), Place(l, name).at;
    NewInPlace(l, name, value);
    InsertSorted(l, k, a);
    InsertUnique(l, k, a);
    NewNsRight(l, name, value);
    InsertNsRight(l, k, a);
  }

  lemma InsertNsRight(l: seq<Attr>, k: nat, a: Attr)
    requires Unique(l) && k <= |l| && !Has(l, a.name) && NsRight(InsertAt(l, k, a), a)
    requires forall i :: 0 <= i < |l| ==> NsRight(l, l[i])
    ensures forall i :: 0 <= i < |InsertAt(l, k, a)| ==> NsRight(InsertAt(l, k, a), InsertAt(l, k, a)[i])
  {
    var m := InsertAt(l, k, a);
    forall i | 0 <= i < |m|
      ensures NsRight(m, m[i])
    {
      if i != k {
        assert m[i] == l[if i < k then i else i - 1];
        InsertKeepsNs(l, k, a, m[i]);
      }
    }
  }

  lemma PlainHasNoNs(l: seq<Attr>, name: string)
    ensures Class(name) < 2 ==> Place(l, name).ns == None
  {
  }

  lemma SameOrder(l: seq<Attr>, m: seq<Attr>)
    requires Sorted(l) && Unique(l) && |m| == |l|
    requires forall j :: 0 <= j < |l| ==> m[j].name == l[j].name && (Class(l[j].name) == 2 ==> m[j].ns == l[j].ns)
    ensures Sorted(m) && Unique(m)
  {
    forall j, k | 0 <= j < k < |m|
      ensures Before(m[j], m[k])
    {
      assert Before(l[j], l[k]);
    }
  }

  lemma StoredInPlace(l: seq<Attr>, i: nat, value: Option<string>)
    requires Canonical(l) && i < |l|
    requires IsDecl(l[i].name) && value.Some? ==> l[i].value.None? || l[i].value == value
    requires !(Class(l[i].name) == 2 && Reallocates(l[i], value))
    ensures Canonical(l[i := Stored(l[i], value)])
  {
    var m := l[i := Stored(l[i], value)];
    assert NsRight(l, l[i]);
    assert forall j :: 0 <= j < |l| ==> m[j].name == l[j].name;
    assert forall j :: 0 <= j < |l| && Class(l[j].name) == 2 ==> m[j].ns == l[j].ns;
    SameOrder(l, m);
    StoredKeepsNs(l, i, value);
  }

  lemma StoredKeepsNs(l: seq<Attr>, i: nat, value: Option<string>)
    requires Canonical(l) && i < |l| && Unique(l[i := Stored(l[i], value)])
    requires IsDecl(l[i].name) && value.Some? ==> l[i].value.None? || l[i].value == value
    requires !(Class(l[i].name) == 2 && Reallocates(l[i], value))
    ensures
      var m := l[i := Stored(l[i], value)];
      forall j :: 0 <= j < |m| ==> NsRight(m, m[j])
  {
    var m := l[i := Stored(l[i], value)];
    forall j | 0 <= j < |m|
      ensures NsRight(m, m[j])
    {
      assert NsRight(l, l[j]) && m[j].name == l[j].name;
      if Class(l[j].name) == 2 {
        var d := IndexOf(l, "xmlns:" + PrefixOf(l[j].name));
        UriIs(m, PrefixOf(l[j].name), d);
      }
    }
  }

  /** soap_set_attr keeps the list in canonical order exactly when no prefixed attribute is given a value
      that does not fit in the buffer of its old one. */
  lemma SetAttrCanonicalIff(l: seq<Attr>, name: string, value: Option<string>)
    requires Canonical(l) && Declared(l, name, value)
    ensures Canonical(SetAttr(l, true, name, value)) <==> !Forgets(l, name, value)
  {
    if !Has(l, name) {
      NewKeepsCanonical(l, name, value);
    } else {
      var i := IndexOf(l, name);
      var m := SetAttr(l, true, name, value);
      if Forgets(l, name, value) {
        assert m[i].ns == None && !NsRight(m, m[i]);
      } else {
        StoredInPlace(l, i, value);
      }
    }
  }

  datatype SetCall = SetCall(name: string, value: Option<string>)

  /** Each prefix is declared before the call that uses it, and keeps its meaning. */
  ghost predicate DeclaredRun(l: seq<Attr>, calls: seq<SetCall>)
    decreases |calls|
  {
    calls == [] || (Declared(l, calls[0].name, calls[0].value)
      && DeclaredRun(SetAttr(l, true, calls[0].name, calls[0].value), calls[1..]))
  }

  /** The list is in canonical order at the start and after every call. */
  ghost predicate CanonicalRun(l: seq<Attr>, calls: seq<SetCall>)
    decreases |calls|
  {
    Canonical(l) && (calls == [] || CanonicalRun(SetAttr(l, true, calls[0].name, calls[0].value), calls[1..]))
  }

  ghost predicate ForgetsRun(l: seq<Attr>, calls: seq<SetCall>)
    decreases |calls|
  {
    calls != [] && (Forgets(l, calls[0].name, calls[0].value)
      || ForgetsRun(SetAttr(l, true, calls[0].name, calls[0].value), calls[1..]))
  }

  /** A sequence of calls keeps the order all the way exactly when no call of it forgets a namespace. */
  lemma {:induction false} RunCanonicalIff(l: seq<Attr>, calls: seq<SetCall>)
    requires Canonical(l) && DeclaredRun(l, calls)
    ensures CanonicalRun(l, calls) <==> !ForgetsRun(l, calls)
    decreases |calls|
  {
    if calls != [] {
      var c := calls[0];
      SetAttrCanonicalIff(l, c.name, c.value);
      if !Forgets(l, c.name, c.value) {
        RunCanonicalIff(SetAttr(l, true, c.name, c.value), calls[1..]);
      }
    }
  }

  /** The attribute with the URI that its prefix is declared with, whether or not that is still recorded. */
  ghost function Meant(l: seq<Attr>, a: Attr): Attr {
    if Class(a.name) == 2 then a.(ns := UriFor(l, PrefixOf(a.name))) else a
  }

  ghost function AllMeant(l: seq<Attr>): (m: seq<Attr>)
    ensures |m| == |l|
  {
    seq(|l|, i requires 0 <= i < |l| => Meant(l, l[i]))
  }

  /** A namespace that is recorded is that of the declaration, and the prefix of every attribute is declared. */
  ghost predicate NsKnown(l: seq<Attr>, a: Attr) {
    && (Class(a.name) == 2 ==> UriFor(l, PrefixOf(a.name)).Some? && (a.ns.Some? ==> a.ns == UriFor(l, PrefixOf(a.name))))
    && (Class(a.name) < 2 ==> NsRight(l, a))
    && (a.value.Some? ==> a.size > |a.value.value|)
  }

  ghost predicate AllKnown(l: seq<Attr>) {
    Unique(l) && forall i :: 0 <= i < |l| ==> NsKnown(l, l[i])
  }

  /** Section 2.2 of Canonical XML 1.0: the order by the URIs that the prefixes are declared with. */
  ghost predicate InOrder(l: seq<Attr>) {
    Sorted(AllMeant(l))
  }

  ghost predicate Forgotten(a: Attr) {
    Class(a.name) == 2 && a.ns.None?
  }

  /** The attribute that a new one belongs in front of has lost its namespace, and the search runs past it: always
      for a name with a prefix, and for one without a prefix if it is the greater one. */
  ghost predicate Misled(l: seq<Attr>, name: string) {
    var q := Place(AllMeant(l), name).at;
    && !Has(l, name) && Class(name) > 0 && q < |l| && Forgotten(l[q])
    && (Class(name) == 1 ==> Less(l[q].name, name))
  }

  lemma MeantUri(l: seq<Attr>, prefix: string)
    requires Unique(l)
    ensures Unique(AllMeant(l)) && UriFor(AllMeant(l), prefix) == UriFor(l, prefix)
  {
    var m := AllMeant(l);
    assert forall i :: 0 <= i < |l| ==> m[i].name == l[i].name && m[i].value == l[i].value;
    if Has(l, "xmlns:" + prefix) {
      var d := IndexOf(l, "xmlns:" + prefix);
      assert m[d].name == "xmlns:" + prefix;
      UriIs(m, prefix, d);
    } else {
      MeantHas(l, "xmlns:" + prefix);
    }
  }

  lemma MeantHas(l: seq<Attr>, name: string)
    ensures Has(AllMeant(l), name) <==> Has(l, name)
  {
    var m := AllMeant(l);
    assert forall i :: 0 <= i < |l| ==> m[i].name == l[i].name;
    if Has(l, name) {
      assert m[IndexOf(l, name)].name == name;
    }
    if Has(m, name) {
      assert l[IndexOf(m, name)].name == name;
    }
  }

  /** With every namespace recorded the list would be canonical. */
  lemma MeantIsCanonical(l: seq<Attr>)
    requires AllKnown(l) && InOrder(l)
    ensures Canonical(AllMeant(l))
  {
    var m := AllMeant(l);
    MeantUri(l, "");
    forall i | 0 <= i < |m|
      ensures NsRight(m, m[i])
    {
      assert NsKnown(l, l[i]);
      MeantUri(l, PrefixOf(l[i].name));
    }
  }

  lemma {:induction false} SameDeclPlace(l: seq<Attr>, m: seq<Attr>, name: string, i: nat)
    requires IsDecl(name) && i <= |l| == |m| && forall j :: 0 <= j < |l| ==> m[j].name == l[j].name
    ensures FindDecl(l, name, i) == FindDecl(m, name, i)
    decreases |l| - i
  {
    if i < |l| {
      SameDeclPlace(l, m, name, i + 1);
    }
  }

  /** l is m with some namespaces of prefixed attributes forgotten. */
  ghost predicate Fewer(l: seq<Attr>, m: seq<Attr>) {
    |l| == |m| && forall j :: 0 <= j < |l| ==>
      m[j].name == l[j].name && (m[j].ns == l[j].ns || (l[j].ns.None? && m[j].ns.Some? && Class(l[j].name) == 2))
  }

  lemma {:induction false} PlainPlaces(l: seq<Attr>, m: seq<Attr>, name: string, i: nat)
    requires i <= |l| && Fewer(l, m) && forall j :: 0 <= j < |l| ==> l[j].name != name && (Class(l[j].name) == 2 ==> m[j].ns.Some?)
    ensures
      var k, q := FindPlain(l, name, i), FindPlain(m, name, i);
      k >= q && (k == q <==> !(q < |l| && Forgotten(l[q]) && Less(l[q].name, name)))
    decreases |l| - i
  {
    if i < |l| {
      LessTotal(l[i].name, name);
      PlainPlaces(l, m, name, i + 1);
    }
  }

  lemma {:induction false} PrefixedPlaces(l: seq<Attr>, m: seq<Attr>, name: string, i: nat, ns: Option<string>)
    requires i <= |l| && Fewer(l, m)
    ensures
      var k, q := FindPrefixed(l, name, i, ns), FindPrefixed(m, name, i, ns);
      k.ns == q.ns && k.at >= q.at && (k.at == q.at <==> !(q.at < |l| && Forgotten(l[q.at])))
    decreases |l| - i
  {
    if i < |l| && !Declares(l[i], PrefixOf(name)) && !Follows(l[i], name, ns) && Follows(m[i], name, ns) {
      KnownPlace(l, name, i + 1, ns);
    } else if i < |l| {
      PrefixedPlaces(l, m, name, i + 1, if Declares(l[i], PrefixOf(name)) && ns.None? then l[i].ns else ns);
    }
  }

  lemma {:induction false} KnownPlace(l: seq<Attr>, name: string, i: nat, ns: Option<string>)
    requires i <= |l| && ns.Some?
    ensures FindPrefixed(l, name, i, ns).ns == ns
    decreases |l| - i
  {
    if i < |l| {
      KnownPlace(l, name, i + 1, ns);
    }
  }

  lemma MeantIsFewer(l: seq<Attr>)
    requires AllKnown(l)
    ensures Fewer(l, AllMeant(l)) && forall j :: 0 <= j < |l| ==> (Class(l[j].name) == 2 ==> AllMeant(l)[j].ns.Some?)
  {
    forall j | 0 <= j < |l|
      ensures AllMeant(l)[j].ns == l[j].ns || (l[j].ns.None? && AllMeant(l)[j].ns.Some? && Class(l[j].name) == 2)
      ensures Class(l[j].name) == 2 ==> AllMeant(l)[j].ns.Some?
    {
      assert NsKnown(l, l[j]);
    }
  }

  /** The search goes as far as the order wants, or past a forgotten attribute. */
  lemma Places(l: seq<Attr>, name: string)
    requires AllKnown(l) && InOrder(l) && !Has(l, name)
    ensures
      var k, q := Place(l, name), Place(AllMeant(l), name);
      k.ns == q.ns && k.at >= q.at && (k.at == q.at <==> !Misled(l, name))
  {
    var m := AllMeant(l);
    MeantIsFewer(l);
    if Class(name) == 0 {
      SameDeclPlace(l, m, name, 0);
    } else if Class(name) == 1 {
      assert forall j :: 0 <= j < |l| ==> l[j].name != name;
      PlainPlaces(l, m, name, 0);
    } else {
      PrefixedPlaces(l, m, name, 0, None);
    }
  }

  lemma MeantInserted(l: seq<Attr>, k: nat, a: Attr)
    requires AllKnown(l) && k <= |l| && !Has(l, a.name)
    requires Class(a.name) == 2 ==> a.ns.Some? && a.ns == UriFor(l, PrefixOf(a.name))
    ensures AllMeant(InsertAt(l, k, a)) == InsertAt(AllMeant(l), k, a)
  {
    var m := InsertAt(l, k, a);
    forall i | 0 <= i < |m|
      ensures Meant(m, m[i]) == InsertAt(AllMeant(l), k, a)[i]
    {
      if i == k {
        SameMeaning(l, k, a, a);
        assert m[i] == a && Meant(l, a) == a;
      } else {
        var j := if i < k then i else i - 1;
        assert NsKnown(l, l[j]) && m[i] == l[j] && InsertAt(AllMeant(l), k, a)[i] == AllMeant(l)[j];
        SameMeaning(l, k, a, l[j]);
      }
    }
  }

  lemma SameMeaning(l: seq<Attr>, k: nat, a: Attr, b: Attr)
    requires Unique(l) && k <= |l| && !Has(l, a.name) && (Class(b.name) == 2 ==> UriFor(l, PrefixOf(b.name)).Some?)
    ensures Meant(InsertAt(l, k, a), b) == Meant(l, b)
  {
    if Class(b.name) == 2 {
      InsertKeepsUri(l, k, a, PrefixOf(b.name));
    }
  }

  lemma NotSorted(l: seq<Attr>, k: nat, a: Attr, q: nat)
    requires q < k <= |l| && Before(a, l[q])
    ensures !Sorted(InsertAt(l, k, a))
  {
    var m := InsertAt(l, k, a);
    assert m[q] == l[q] && m[k] == a;
    if Before(l[q], a) {
      BeforeTransitive(a, l[q], a);
      BeforeIrreflexive(a);
    }
  }

  lemma InsertKnown(l: seq<Attr>, k: nat, a: Attr)
    requires AllKnown(l) && k <= |l| && !Has(l, a.name) && NsRight(InsertAt(l, k, a), a)
    ensures AllKnown(InsertAt(l, k, a))
  {
    var m := InsertAt(l, k, a);
    InsertUnique(l, k, a);
    forall i | 0 <= i < |m|
      ensures NsKnown(m, m[i])
    {
      if i != k {
        assert NsKnown(l, l[if i < k then i else i - 1]);
        if Class(m[i].name) == 2 {
          InsertKeepsUri(l, k, a, PrefixOf(m[i].name));
        }
      }
    }
  }

  /** A new attribute keeps the order exactly when the search for its place is not misled. */
  lemma NewInOrderIff(l: seq<Attr>, name: string, value: Option<string>)
    requires AllKnown(l) && InOrder(l) && !Has(l, name) && Declared(l, name, value)
    ensures AllKnown(SetAttr(l, true, name, value))
    ensures InOrder(SetAttr(l, true, name, value)) <==> !Misled(l, name)
  {
    var m := AllMeant(l);
    var a, k, q := NewAttr(l, name, value), Place(l, name).at, Place(m, name).at;
    MeantIsCanonical(l);
    MeantHas(l, name);
    MeantUri(l, PrefixOf(name));
    Places(l, name);
    NewInPlace(m, name, value);
    assert NewAttr(m, name, value) == a;
    NewNsRight(l, name, value);
    InsertKnown(l, k, a);
    MeantInserted(l, k, a);
    if Misled(l, name) {
      NotSorted(m, k, a, q);
    } else {
      InsertSorted(m, k, a);
    }
  }

  lemma StoredUri(l: seq<Attr>, i: nat, value: Option<string>, prefix: string)
    requires Unique(l) && i < |l| && UriFor(l, prefix).Some?
    requires IsDecl(l[i].name) && value.Some? ==> l[i].value.None? || l[i].value == value
    ensures Unique(l[i := Stored(l[i], value)]) && UriFor(l[i := Stored(l[i], value)], prefix) == UriFor(l, prefix)
  {
    var m := l[i := Stored(l[i], value)];
    assert forall j :: 0 <= j < |l| ==> m[j].name == l[j].name;
    UriIs(m, prefix, IndexOf(l, "xmlns:" + prefix));
  }

  /** Storing a value changes no place, whatever is forgotten. */
  lemma StoredInOrder(l: seq<Attr>, i: nat, value: Option<string>)
    requires AllKnown(l) && InOrder(l) && i < |l|
    requires IsDecl(l[i].name) && value.Some? ==> l[i].value.None? || l[i].value == value
    ensures AllKnown(l[i := Stored(l[i], value)]) && InOrder(l[i := Stored(l[i], value)])
  {
    var m := l[i := Stored(l[i], value)];
    assert forall j :: 0 <= j < |l| ==> m[j].name == l[j].name;
    forall j | 0 <= j < |l|
      ensures NsKnown(m, m[j]) && AllMeant(m)[j].name == AllMeant(l)[j].name
      ensures Class(l[j].name) == 2 ==> AllMeant(m)[j].ns == AllMeant(l)[j].ns
    {
      StoredKnown(l, i, value, j);
    }
    MeantUri(l, "");
    SameOrder(AllMeant(l), AllMeant(m));
  }

  lemma StoredKnown(l: seq<Attr>, i: nat, value: Option<string>, j: nat)
    requires AllKnown(l) && i < |l| && j < |l|
    requires IsDecl(l[i].name) && value.Some? ==> l[i].value.None? || l[i].value == value
    ensures
      var m := l[i := Stored(l[i], value)];
      NsKnown(m, m[j]) && (Class(l[j].name) == 2 ==> UriFor(m, PrefixOf(m[j].name)) == UriFor(l, PrefixOf(l[j].name)))
  {
    assert NsKnown(l, l[j]);
    if Class(l[j].name) == 2 {
      StoredUri(l, i, value, PrefixOf(l[j].name));
    }
  }

  /** soap_set_attr keeps the order exactly when it does not look for the place of a new attribute past a forgotten
      one that belongs behind it. */
  lemma SetAttrInOrderIff(l: seq<Attr>, name: string, value: Option<string>)
    requires AllKnown(l) && InOrder(l) && Declared(l, name, value)
    ensures AllKnown(SetAttr(l, true, name, value))
    ensures InOrder(SetAttr(l, true, name, value)) <==> !Misled(l, name)
  {
    if Has(l, name) {
      StoredInOrder(l, IndexOf(l, name), value);
    } else {
      NewInOrderIff(l, name, value);
    }
  }

  /** The list is in order at the start and after every call. */
  ghost predicate InOrderRun(l: seq<Attr>, calls: seq<SetCall>)
    decreases |calls|
  {
    InOrder(l) && (calls == [] || InOrderRun(SetAttr(l, true, calls[0].name, calls[0].value), calls[1..]))
  }

  ghost predicate MisledRun(l: seq<Attr>, calls: seq<SetCall>)
    decreases |calls|
  {
    calls != [] && (Misled(l, calls[0].name) || MisledRun(SetAttr(l, true, calls[0].name, calls[0].value), calls[1..]))
  }

  /** A sequence of calls keeps the order all the way exactly when none of its calls is misled. */
  lemma {:induction false} RunInOrderIff(l: seq<Attr>, calls: seq<SetCall>)
    requires AllKnown(l) && InOrder(l) && DeclaredRun(l, calls)
    ensures InOrderRun(l, calls) <==> !MisledRun(l, calls)
    decreases |calls|
  {
    if calls != [] {
      var c := calls[0];
      SetAttrInOrderIff(l, c.name, c.value);
      if !Misled(l, c.name) {
        RunInOrderIff(SetAttr(l, true, c.name, c.value), calls[1..]);
      }
    }
  }

  lemma CanonicalIsInOrder(l: seq<Attr>)
    requires Canonical(l)
    ensures AllKnown(l) && InOrder(l) && forall name :: !Misled(l, name)
  {
    forall i | 0 <= i < |l|
      ensures NsKnown(l, l[i]) && AllMeant(l)[i] == l[i]
    {
      assert NsRight(l, l[i]);
    }
    assert AllMeant(l) == l;
  }

  /** As long as no namespace is forgotten, no call is misled. */
  lemma {:induction false} UnforgottenInOrder(l: seq<Attr>, calls: seq<SetCall>)
    requires Canonical(l) && DeclaredRun(l, calls) && !ForgetsRun(l, calls)
    ensures InOrderRun(l, calls)
    decreases |calls|
  {
    CanonicalIsInOrder(l);
    if calls != [] {
      var c := calls[0];
      SetAttrCanonicalIff(l, c.name, c.value);
      UnforgottenInOrder(SetAttr(l, true, c.name, c.value), calls[1..]);
    }
  }

  lemma TwoCanonical(d: Attr, a: Attr)
    requires d == Attr("xmlns:p", Some("u"), Some("u"), 2, 2) && a == Attr("p:a", Some("u"), Some("1"), 2, 2)
    ensures Canonical([d, a])
  {
    assert IsDecl("xmlns:p") && !IsDecl("p:a") && Colon("p:a") == 1;
    assert PrefixOf("p:a") == "p" && Declares(d, "p") && [d, a][0] == d && [d, a][1] == a;
    UriIs([d, a], "p", 0);
    assert NsRight([d, a], d) && NsRight([d, a], a);
  }

  /** When the namespace of an attribute has been forgotten, an attribute without a prefix can end up behind it. */
  lemma OrderLost()
    ensures
      var d, a := Attr("xmlns:p", Some("u"), Some("u"), 2, 2), Attr("p:a", Some("u"), Some("1"), 2, 2);
      var b, c := Attr("p:a", None, Some("22"), 3, 2), Attr("z", None, Some("3"), 2, 2);
      && Canonical([d, a])
      && Declared([d, a], "p:a", Some("22")) && SetAttr([d, a], true, "p:a", Some("22")) == [d, b]
      && Declared([d, b], "z", Some("3")) && SetAttr([d, b], true, "z", Some("3")) == [d, b, c] && Before(c, b)
  {
    var d, a := Attr("xmlns:p", Some("u"), Some("u"), 2, 2), Attr("p:a", Some("u"), Some("1"), 2, 2);
    var b := Attr("p:a", None, Some("22"), 3, 2);
    TwoCanonical(d, a);
    assert [d, a][1] == a && Has([d, a], "p:a");
    assert [d, b][0] == d && [d, b][1] == b && !Has([d, b], "z");
    assert !Less("z", "p:a");
    assert FindPlain([d, b], "z", 0) == FindPlain([d, b], "z", 1) == FindPlain([d, b], "z", 2) == 2;
  }

  lemma Displaced(l: seq<Attr>)
    requires |l| == 3 && Class(l[1].name) == 2 && Class(l[2].name) == 1
    ensures !InOrder(l)
  {
    assert !Before(AllMeant(l)[1], AllMeant(l)[2]);
  }

  /** The second call of OrderLost leaves the order alone; the third is misled, and the order is gone. */
  lemma SecondCallMisled(l: seq<Attr>)
    requires Canonical(l) && Declared(l, "p:a", Some("22")) && |SetAttr(l, true, "p:a", Some("22"))| == 2
    requires
      var m := SetAttr(l, true, "p:a", Some("22"));
      var n := SetAttr(m, true, "z", Some("3"));
      Declared(m, "z", Some("3")) && |n| == 3 && Class(n[1].name) == 2 && Class(n[2].name) == 1
    ensures
      var m := SetAttr(l, true, "p:a", Some("22"));
      InOrder(m) && Misled(m, "z") && !InOrder(SetAttr(m, true, "z", Some("3")))
  {
    var m := SetAttr(l, true, "p:a", Some("22"));
    CanonicalIsInOrder(l);
    SetAttrInOrderIff(l, "p:a", Some("22"));
    SetAttrInOrderIff(m, "z", Some("3"));
    Displaced(SetAttr(m, true, "z", Some("3")));
  }

  /** The run of OrderLost, in terms of the order. */
  lemma OrderLostInRun(l: seq<Attr>, calls: seq<SetCall>)
    requires l == [Attr("xmlns:p", Some("u"), Some("u"), 2, 2), Attr("p:a", Some("u"), Some("1"), 2, 2)]
    requires calls == [SetCall("p:a", Some("22")), SetCall("z", Some("3"))]
    ensures Canonical(l) && DeclaredRun(l, calls) && !InOrderRun(l, calls)
  {
    OrderLost();
    var m := SetAttr(l, true, "p:a", Some("22"));
    assert Class("p:a") == 2 && Class("z") == 1 by { assert "p:a"[1] == ':'; }
    SecondCallMisled(l);
    assert calls[1..] == [calls[1]] && calls[1..][1..] == [];
    var n := SetAttr(m, true, "z", Some("3"));
    assert DeclaredRun(n, []) && !InOrderRun(n, []);
    assert DeclaredRun(m, calls[1..]) && !InOrderRun(m, calls[1..]);
  }

  /** The attribute at k is a, the others are those of l but for one of the name of a. */
  ghost predicate OneChanged(l: seq<Attr>, m: seq<Attr>, k: nat, a: Attr) {
    && k < |m| && m[k] == a && Unique(m)
    && (forall n :: Has(m, n) <==> Has(l, n) || n == a.name)
    && (forall n :: Has(l, n) && n != a.name ==> exists i :: 0 <= i < |m| && m[i] == l[IndexOf(l, n)])
  }

  lemma StoredChangesOne(l: seq<Attr>, k: nat, value: Option<string>)
    requires Unique(l) && k < |l|
    ensures OneChanged(l, l[k := Stored(l[k], value)], k, Stored(l[k], value))
  {
    var m := l[k := Stored(l[k], value)];
    assert forall i :: 0 <= i < |l| ==> m[i].name == l[i].name;
    forall n
      ensures Has(m, n) <==> Has(l, n) || n == l[k].name
    {
      assert Has(l, n) ==> m[IndexOf(l, n)].name == n;
      assert Has(m, n) ==> l[IndexOf(m, n)].name == n;
    }
    forall n | Has(l, n) && n != l[k].name
      ensures exists i :: 0 <= i < |m| && m[i] == l[IndexOf(l, n)]
    {
      assert m[IndexOf(l, n)] == l[IndexOf(l, n)];
    }
  }

  lemma InsertChangesOne(l: seq<Attr>, k: nat, a: Attr)
    requires Unique(l) && k <= |l| && !Has(l, a.name)
    ensures OneChanged(l, InsertAt(l, k, a), k, a)
  {
    var m := InsertAt(l, k, a);
    InsertUnique(l, k, a);
    forall n | Has(l, n) && n != a.name
      ensures exists i :: 0 <= i < |m| && m[i] == l[IndexOf(l, n)]
    {
      var i := IndexOf(l, n);
      assert m[if i < k then i else i + 1] == l[i];
    }
  }

  /** The attributes and their values, whatever the order: the one of the name is stored, the others kept. */
  lemma SetAttrStores(l: seq<Attr>, canonical: bool, name: string, value: Option<string>)
    requires Unique(l)
    ensures
      var m := SetAttr(l, canonical, name, value);
      && Unique(m) && (forall n :: Has(m, n) <==> Has(l, n) || n == name)
      && (forall n :: Has(l, n) && n != name ==> m[IndexOf(m, n)] == l[IndexOf(l, n)])
      && m[IndexOf(m, name)].visible == (if value.Some? then 2 else 1)
      && (value.Some? ==> m[IndexOf(m, name)].value == value)
  {
    if Has(l, name) {
      var k := IndexOf(l, name);
      StoredChangesOne(l, k, value);
      OneStored(l, SetAttr(l, canonical, name, value), k, Stored(l[k], value));
    } else {
      var k := if canonical then Place(l, name).at else 0;
      var a := Stored(Attr(name, if canonical then Place(l, name).ns else None, None, 0, 0), value);
      InsertChangesOne(l, k, a);
      AtFront(l, a);
      OneStored(l, InsertAt(l, k, a), k, a);
    }
  }

  lemma AtFront(l: seq<Attr>, a: Attr)
    ensures InsertAt(l, 0, a) == [a] + l
  {
  }

  lemma OneStored(l: seq<Attr>, m: seq<Attr>, k: nat, a: Attr)
    requires Unique(l) && OneChanged(l, m, k, a)
    ensures Has(m, a.name) && m[IndexOf(m, a.name)] == a
    ensures forall n :: Has(l, n) && n != a.name ==> Has(m, n) && m[IndexOf(m, n)] == l[IndexOf(l, n)]
  {
    IndexUnique(m, k);
    forall n | Has(l, n) && n != a.name
      ensures m[IndexOf(m, n)] == l[IndexOf(l, n)]
    {
      var i :| 0 <= i < |m| && m[i] == l[IndexOf(l, n)];
      IndexUnique(m, i);
    }
  }

  lemma IndexUnique(l: seq<Attr>, i: nat)
    requires Unique(l) && i < |l|
    ensures Has(l, l[i].name) && IndexOf(l, l[i].name) == i
  {
    var k := IndexOf(l, l[i].name);
    assert !(k < i) && !(i < k);
  }

  lemma BeforeIrreflexive(a: Attr)
    ensures !Before(a, a)
  {
    LessTotal(a.name, a.name);
    if a.ns.Some? {
      LessTotal(a.ns.value, a.ns.value);
    }
  }

  lemma FirstOnce(l: seq<Attr>, a: Attr)
    requires Sorted(l) && l != []
    ensures a in l[1..] <==> a in l && a != l[0]
  {
    assert l == [l[0]] + l[1..];
    forall i | 1 <= i < |l|
      ensures l[i] != l[0]
    {
      assert Before(l[0], l[i]);
      BeforeIrreflexive(l[0]);
    }
  }

  lemma FirstIsFirst(l: seq<Attr>, m: seq<Attr>)
    requires Sorted(l) && Sorted(m) && l != [] && m != [] && forall a :: a in l <==> a in m
    ensures l[0] == m[0]
  {
    assert l[0] in l && m[0] in m;
    var i :| 0 <= i < |m| && m[i] == l[0];
    var j :| 0 <= j < |l| && l[j] == m[0];
    if i > 0 && j > 0 {
      BeforeTransitive(l[0], m[0], l[0]);
      BeforeIrreflexive(l[0]);
    }
  }

  /** There is one way to put attributes in canonical order, so the order of the calls does not show. */
  lemma {:induction false} CanonicalOrderIsUnique(l: seq<Attr>, m: seq<Attr>)
    requires Sorted(l) && Sorted(m) && forall a :: a in l <==> a in m
    ensures l == m
  {
    assert l != [] ==> l[0] in l;
    assert m != [] ==> m[0] in m;
    if l != [] {
      FirstIsFirst(l, m);
      forall a
        ensures a in l[1..] <==> a in m[1..]
      {
        FirstOnce(l, a);
        FirstOnce(m, a);
      }
      CanonicalOrderIsUnique(l[1..], m[1..]);
    }
  }
}
