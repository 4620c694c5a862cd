/**
 * The page script of the host list: the children map that the template
 * writes into the script as a JavaScript object literal, the literal's
 * meaning once evaluated, the transitive collapse over it, and the click
 * handler of a group's chevron.
 */
module GroupScript {
  import opened HostTypes

  // ---------------------------------------------------------------------
  // Ids as text.

  predicate IsDigit(c: char) {
    '0' <= c <= '9'
  }

  function DigitValue(c: char): nat
    requires IsDigit(c)
  {
    c as int - '0' as int
  }

  function Digit(d: nat): (c: char)
    requires d < 10
    ensures IsDigit(c) && DigitValue(c) == d
  {
    ('0' as int + d) as char
  }

  predicate AllDigits(s: string) {
    forall i :: 0 <= i < |s| ==> IsDigit(s[i])
  }

  /** The decimal text PHP prints for an integer id. */
  function IdText(n: nat): (r: string)
    ensures r != [] && AllDigits(r)
    decreases n
  {
    if n < 10 then [Digit(n)] else IdText(n / 10) + [Digit(n % 10)]
  }

  /** Decimal text read back as a number. */
  function ReadId(s: string): nat
    requires AllDigits(s)
    decreases |s|
  {
    if s == [] then 0 else ReadId(s[..|s| - 1]) * 10 + DigitValue(s[|s| - 1])
  }

  lemma {:induction false} ReadIdText(n: nat)
    ensures ReadId(IdText(n)) == n
    decreases n
  {
    if n >= 10 {
      ReadIdText(n / 10);
      var s := IdText(n);
      assert s[..|s| - 1] == IdText(n / 10);
    } else {
      assert IdText(n)[..0] == [];
    }
  }

  /** Distinct ids print as distinct keys. */
  lemma IdTextInjective(a: nat, b: nat)
    ensures IdText(a) == IdText(b) <==> a == b
  {
    ReadIdText(a);
    ReadIdText(b);
  }

  // ---------------------------------------------------------------------
  // The literal `data = {'<groupid>':['<childid>',...],...}`.

  predicate QuoteFree(s: string) {
    forall i :: 0 <= i < |s| ==> s[i] != '\''
  }

  function Quote(s: string): string {
    "'" + s + "'"
  }

  /** The items quoted and separated by commas, with none after the last. */
  function Join(xs: seq<string>): string {
    if xs == [] then ""
    else if |xs| == 1 then Quote(xs[0])
    else Quote(xs[0]) + "," + Join(xs[1..])
  }

  /** One key of the literal with the list it maps to. */
  datatype Entry = Entry(key: string, items: seq<string>)

  function EntryText(e: Entry): string {
    Quote(e.key) + ":[" + Join(e.items) + "],"
  }

  function Serialize(es: seq<Entry>): string {
    if es == [] then "" else EntryText(es[0]) + Serialize(es[1..])
  }

  predicate QuoteFreeEntry(e: Entry) {
    QuoteFree(e.key) && forall i :: 0 <= i < |e.items| ==> QuoteFree(e.items[i])
  }

  /** Every key of the group map is one of its nodes. */
  predicate NamesKnown(t: GroupMap) {
    forall i :: 0 <= i < |t.names| ==> t.names[i] in t.nodes
  }

  /** The id a child name is printed as; a name without a node reads as null, which prints as nothing. */
  function ChildId(t: GroupMap, c: string): (r: string)
    ensures AllDigits(r)
  {
    if c in t.nodes then IdText(t.nodes[c].groupid) else ""
  }

  function ChildIds(t: GroupMap, cs: seq<string>): seq<string> {
    seq(|cs|, i requires 0 <= i < |cs| => ChildId(t, cs[i]))
  }

  /** Whether key `j` gets an entry: it has children. */
  predicate HasEntry(t: GroupMap, j: nat)
    requires NamesKnown(t) && j < |t.names|
  {
    t.nodes[t.names[j]].children != []
  }

  function EntryOf(t: GroupMap, j: nat): Entry
    requires NamesKnown(t) && j < |t.names|
  {
    var node := t.nodes[t.names[j]];
    Entry(IdText(node.groupid), ChildIds(t, node.children))
  }

  /** The entries written for the first `n` keys of the group map. */
  function EntriesOf(t: GroupMap, n: nat): seq<Entry>
    requires NamesKnown(t) && n <= |t.names|
  {
    if n == 0 then []
    else if HasEntry(t, n - 1) then EntriesOf(t, n - 1) + [EntryOf(t, n - 1)]
    else EntriesOf(t, n - 1)
  }

  function DataLiteral(t: GroupMap): string
    requires NamesKnown(t)
  {
    "{" + Serialize(EntriesOf(t, |t.names|)) + "}"
  }

  lemma {:induction false} JoinSnoc(xs: seq<string>, x: string)
    ensures Join(xs + [x]) == if xs == [] then Quote(x) else Join(xs) + "," + Quote(x)
    decreases |xs|
  {
    if |xs| == 1 {
      assert (xs + [x])[1..] == [x];
    } else if |xs| > 1 {
      JoinSnoc(xs[1..], x);
      assert (xs + [x])[1..] == xs[1..] + [x];
      assert Join(xs + [x]) == Quote(xs[0]) + "," + (Join(xs[1..]) + "," + Quote(x));
    }
  }

  lemma {:induction false} SerializeSnoc(es: seq<Entry>, e: Entry)
    ensures Serialize(es + [e]) == Serialize(es) + EntryText(e)
    decreases |es|
  {
    if es == [] {
      assert [e][1..] == [];
    } else {
      SerializeSnoc(es[1..], e);
      assert (es + [e])[1..] == es[1..] + [e];
    }
  }

  /** `print_children`: each child's id in quotes, followed by a comma unless it is the last. */
  method PrintChildren(t: GroupMap, children: seq<string>) returns (out: string)
    ensures out == Join(ChildIds(t, children))
  {
    ghost var ids := ChildIds(t, children);
    var num := |children|;
    var index: nat := 0;
    out := "";
    while index < num
      invariant index <= num
      invariant out == Printed(ids, index)
    {
      var id := ChildId(t, children[index]);
      PrintedNext(ids, index);
      out := out + "'" + id + "'";
      if index < num - 1 {
        out := out + ",";
      }
      index := index + 1;
    }
    PrintedAll(ids);
  }

  /** What `print_children` has echoed after `index` of the items: them, each with its trailing comma. */
  function Printed(ids: seq<string>, index: nat): string
    requires index <= |ids|
  {
    Join(ids[..index]) + (if 0 < index < |ids| then "," else "")
  }

  lemma PrintedNext(ids: seq<string>, index: nat)
    requires index < |ids|
    ensures Printed(ids, index + 1)
      == Printed(ids, index) + "'" + ids[index] + "'" + (if index < |ids| - 1 then "," else "")
  {
    var x := ids[index];
    assert ids[..index + 1] == ids[..index] + [x];
    JoinSnoc(ids[..index], x);
    if index == 0 {
      assert Printed(ids, index) == "";
    }
  }

  lemma PrintedAll(ids: seq<string>)
    ensures Printed(ids, |ids|) == Join(ids)
  {
    assert ids[..|ids|] == ids;
  }

  lemma EntrySpelling(key: string, kids: string, items: seq<string>)
    requires kids == Join(items)
    ensures "'" + key + "':[" + kids + "]," == EntryText(Entry(key, items))
  {
    assert "'" + key + "':[" + kids + "]," == ("'" + key + "'") + ":[" + kids + "],";
  }

  lemma EmitStep(t: GroupMap, i: nat, kids: string)
    requires NamesKnown(t) && i < |t.names| && HasEntry(t, i)
    requires kids == Join(EntryOf(t, i).items)
    ensures "{" + Serialize(EntriesOf(t, i + 1))
      == "{" + Serialize(EntriesOf(t, i)) + ("'" + EntryOf(t, i).key + "':[" + kids + "],")
  {
    var e := EntryOf(t, i);
    assert EntriesOf(t, i + 1) == EntriesOf(t, i) + [e];
    SerializeSnoc(EntriesOf(t, i), e);
    EntrySpelling(e.key, kids, e.items);
  }

  /** The template's loop over the group map, echoing one entry per group with children. */
  method EmitData(t: GroupMap) returns (out: string)
    requires NamesKnown(t)
    ensures out == DataLiteral(t)
  {
    out := "{";
    var i: nat := 0;
    while i < |t.names|
      invariant i <= |t.names|
      invariant out == "{" + Serialize(EntriesOf(t, i))
    {
      var group := t.nodes[t.names[i]];
      if |group.children| > 0 {
        var key := IdText(group.groupid);
        var kids := PrintChildren(t, group.children);
        EmitStep(t, i, kids);
        out := out + ("'" + key + "':[" + kids + "],");
      } else {
        assert EntriesOf(t, i + 1) == EntriesOf(t, i);
      }
      i := i + 1;
    }
    out := out + "}";
  }

  // ---------------------------------------------------------------------
  // Reading the literal back.

  /** The text before the first single quote, and the rest from that quote on. */
  function UpToQuote(s: string): (r: (string, string))
    ensures r.0 + r.1 == s
    decreases |s|
  {
    if s == [] || s[0] == '\'' then ([], s)
    else
      var r := UpToQuote(s[1..]);
      ([s[0]] + r.0, r.1)
  }

  function ParseQuoted(s: string): (r: Option<(string, string)>)
    ensures r.Some? ==> |r.value.1| < |s|
  {
    if s != [] && s[0] == '\'' then
      var r := UpToQuote(s[1..]);
      if r.1 != [] then Some((r.0, r.1[1..])) else None
    else None
  }

  /** Quoted items up to and including the closing bracket. */
  function ParseItems(s: string): (r: Option<(seq<string>, string)>)
    ensures r.Some? ==> |r.value.1| < |s|
    decreases |s|
  {
    if s != [] && s[0] == ']' then Some(([], s[1..]))
    else
      match ParseQuoted(s)
      case None => None
      case Some(q) =>
        var rest := q.1;
        if rest != [] && rest[0] == ']' then Some(([q.0], rest[1..]))
        else if rest != [] && rest[0] == ',' then
          match ParseItems(rest[1..])
          case None => None
          case Some(more) => Some(([q.0] + more.0, more.1))
        else None
  }

  function ParseEntry(s: string): (r: Option<(Entry, string)>)
    ensures r.Some? ==> |r.value.1| < |s|
  {
    match ParseQuoted(s)
    case None => None
    case Some(q) =>
      var rest := q.1;
      if |rest| >= 2 && rest[0] == ':' && rest[1] == '[' then
        match ParseItems(rest[2..])
        case None => None
        case Some(p) =>
          if p.1 != [] && p.1[0] == ',' then Some((Entry(q.0, p.0), p.1[1..])) else None
      else None
  }

  function ParseEntries(s: string): Option<seq<Entry>>
    decreases |s|
  {
    if s == [] then Some([])
    else
      match ParseEntry(s)
      case None => None
      case Some(p) =>
        match ParseEntries(p.1)
        case None => None
        case Some(es) => Some([p.0] + es)
  }

  function ParseLiteral(s: string): Option<seq<Entry>> {
    if |s| >= 2 && s[0] == '{' && s[|s| - 1] == '}' then ParseEntries(s[1..|s| - 1]) else None
  }

  lemma {:induction false} UpToQuoteOf(x: string, rest: string)
    requires QuoteFree(x)
    ensures UpToQuote(x + "'" + rest) == (x, "'" + rest)
    decreases |x|
  {
    var s := x + "'" + rest;
    if x != [] {
      assert s[0] == x[0] && x[0] != '\'';
      assert s[1..] == x[1..] + "'" + rest;
      UpToQuoteOf(x[1..], rest);
      var r := UpToQuote(s[1..]);
      assert r == (x[1..], "'" + rest);
      assert UpToQuote(s) == ([s[0]] + r.0, r.1);
      assert [x[0]] + x[1..] == x;
    } else {
      assert s == "'" + rest;
    }
  }

  lemma QuotedRead(x: string, rest: string)
    requires QuoteFree(x)
    ensures ParseQuoted(Quote(x) + rest) == Some((x, rest))
  {
    var s := Quote(x) + rest;
    assert s[1..] == x + "'" + rest;
    UpToQuoteOf(x, rest);
    assert ("'" + rest)[1..] == rest;
  }

  lemma {:induction false} ItemsRead(xs: seq<string>, rest: string)
    requires forall i :: 0 <= i < |xs| ==> QuoteFree(xs[i])
    ensures ParseItems(Join(xs) + "]" + rest) == Some((xs, rest))
    decreases |xs|
  {
    var s := Join(xs) + "]" + rest;
    if xs == [] {
      assert s == "]" + rest;
      assert s[1..] == rest;
    } else if |xs| == 1 {
      assert s == Quote(xs[0]) + ("]" + rest);
      assert s[0] == '\'';
      QuotedRead(xs[0], "]" + rest);
      assert ("]" + rest)[1..] == rest;
      assert [xs[0]] == xs;
    } else {
      var tail := Join(xs[1..]) + "]" + rest;
      assert s == Quote(xs[0]) + ("," + tail);
      assert s[0] == '\'';
      QuotedRead(xs[0], "," + tail);
      assert ("," + tail)[1..] == tail;
      ItemsRead(xs[1..], rest);
      assert [xs[0]] + xs[1..] == xs;
    }
  }

  lemma EntryRead(e: Entry, rest: string)
    requires QuoteFreeEntry(e)
    ensures ParseEntry(EntryText(e) + rest) == Some((e, rest))
  {
    var after := ":[" + Join(e.items) + "]," + rest;
    assert EntryText(e) + rest == Quote(e.key) + after;
    QuotedRead(e.key, after);
    assert after[2..] == Join(e.items) + "]" + ("," + rest);
    ItemsRead(e.items, "," + rest);
    assert ("," + rest)[1..] == rest;
  }

  lemma {:induction false} SerializeRead(es: seq<Entry>)
    requires forall i :: 0 <= i < |es| ==> QuoteFreeEntry(es[i])
    ensures ParseEntries(Serialize(es)) == Some(es)
    decreases |es|
  {
    if es != [] {
      var s := Serialize(es);
      EntryRead(es[0], Serialize(es[1..]));
      SerializeRead(es[1..]);
      assert [es[0]] + es[1..] == es;
      assert s != [] by {
        assert |EntryText(es[0])| > 0;
      }
    }
  }

  lemma DigitsQuoteFree(s: string)
    requires AllDigits(s)
    ensures QuoteFree(s)
  {
  }

  lemma {:induction false} EntriesQuoteFree(t: GroupMap, n: nat)
    requires NamesKnown(t) && n <= |t.names|
    ensures forall i :: 0 <= i < |EntriesOf(t, n)| ==> QuoteFreeEntry(EntriesOf(t, n)[i])
  {
    if n > 0 {
      EntriesQuoteFree(t, n - 1);
      var e := EntryOf(t, n - 1);
      forall i | 0 <= i < |e.items| ensures QuoteFree(e.items[i]) {
        DigitsQuoteFree(e.items[i]);
      }
      DigitsQuoteFree(e.key);
    }
  }

  /** The literal reads back as exactly the entries it was written from, in key order. */
  lemma LiteralRoundTrip(t: GroupMap)
    requires NamesKnown(t)
    ensures ParseLiteral(DataLiteral(t)) == Some(EntriesOf(t, |t.names|))
  {
    var body := Serialize(EntriesOf(t, |t.names|));
    var s := DataLiteral(t);
    assert s[1..|s| - 1] == body;
    EntriesQuoteFree(t, |t.names|);
    SerializeRead(EntriesOf(t, |t.names|));
  }

  // ---------------------------------------------------------------------
  // The object the literal evaluates to.

  /** Evaluating an object literal: a later entry with the same key replaces an earlier one. */
  function Evaluate(es: seq<Entry>): map<string, seq<string>> {
    if es == [] then map[] else Evaluate(es[..|es| - 1])[es[|es| - 1].key := es[|es| - 1].items]
  }

  lemma EvaluateSnoc(es: seq<Entry>, e: Entry)
    ensures Evaluate(es + [e]) == Evaluate(es)[e.key := e.items]
  {
    assert (es + [e])[..|es|] == es;
  }

  /** The children map the script works with. */
  function PageData(t: GroupMap): map<string, seq<string>>
    requires NamesKnown(t)
  {
    Evaluate(EntriesOf(t, |t.names|))
  }

  lemma {:induction false} DataKeys(t: GroupMap, n: nat)
    requires NamesKnown(t) && n <= |t.names|
    ensures forall k :: k in Evaluate(EntriesOf(t, n)) <==> exists j :: 0 <= j < n && HasEntry(t, j) && EntryOf(t, j).key == k
  {
    if n > 0 {
      DataKeys(t, n - 1);
      var before := Evaluate(EntriesOf(t, n - 1));
      var now := Evaluate(EntriesOf(t, n));
      if HasEntry(t, n - 1) {
        EvaluateSnoc(EntriesOf(t, n - 1), EntryOf(t, n - 1));
      }
      assert now.Keys == before.Keys || (HasEntry(t, n - 1) && now.Keys == before.Keys + {EntryOf(t, n - 1).key});
      forall k ensures k in now <==> exists j :: 0 <= j < n && HasEntry(t, j) && EntryOf(t, j).key == k {
        if k in now && k !in before {
          assert HasEntry(t, n - 1) && EntryOf(t, n - 1).key == k;
        }
        if exists j :: 0 <= j < n && HasEntry(t, j) && EntryOf(t, j).key == k {
          var j :| 0 <= j < n && HasEntry(t, j) && EntryOf(t, j).key == k;
          if j < n - 1 {
            assert k in before;
          }
        }
      }
    }
  }

  lemma {:induction false} DataLookup(t: GroupMap, n: nat, j: nat)
    requires NamesKnown(t) && j < n <= |t.names| && HasEntry(t, j)
    requires forall k :: j < k < n && HasEntry(t, k) ==> t.nodes[t.names[k]].groupid != t.nodes[t.names[j]].groupid
    ensures EntryOf(t, j).key in Evaluate(EntriesOf(t, n))
    ensures Evaluate(EntriesOf(t, n))[EntryOf(t, j).key] == EntryOf(t, j).items
  {
    if j < n - 1 {
      DataLookup(t, n - 1, j);
      if HasEntry(t, n - 1) {
        EvaluateSnoc(EntriesOf(t, n - 1), EntryOf(t, n - 1));
        IdTextInjective(t.nodes[t.names[n - 1]].groupid, t.nodes[t.names[j]].groupid);
      }
    } else {
      EvaluateSnoc(EntriesOf(t, n - 1), EntryOf(t, n - 1));
    }
  }

  /**
   * The script's map has a key for a group id exactly when some group with
   * children has that id, and a group whose id no later group with children
   * shares maps to its children's ids in order.
   */
  lemma PageDataMeaning(t: GroupMap, j: nat)
    requires NamesKnown(t) && j < |t.names| && HasEntry(t, j)
    requires forall k :: j < k < |t.names| && HasEntry(t, k) ==> t.nodes[t.names[k]].groupid != t.nodes[t.names[j]].groupid
    ensures forall k :: k in PageData(t) <==> exists i :: 0 <= i < |t.names| && HasEntry(t, i) && EntryOf(t, i).key == k
    ensures PageData(t)[IdText(t.nodes[t.names[j]].groupid)] == ChildIds(t, t.nodes[t.names[j]].children)
  {
    DataKeys(t, |t.names|);
    DataLookup(t, |t.names|, j);
  }

  // ---------------------------------------------------------------------
  // Transitive collapse.

  /**
   * `collapseSubgroup(g)` allowed at most `fuel` nested calls: the ids it
   * collapses, or None when the calls nest deeper than that.
   */
  function Collapse(data: map<string, seq<string>>, g: string, fuel: nat): Option<set<string>>
    requires g in data
    decreases fuel, 0
  {
    if fuel == 0 then None
    else
      match CollapseKids(data, data[g], fuel - 1)
      case None => None
      case Some(s) => Some({g} + s)
  }

  /** The loop over a group's listed children: recurse into those with an entry, collapse the others. */
  function CollapseKids(data: map<string, seq<string>>, kids: seq<string>, fuel: nat): Option<set<string>>
    decreases fuel, 1, |kids|
  {
    if kids == [] then Some({})
    else
      var c := kids[|kids| - 1];
      match CollapseKids(data, kids[..|kids| - 1], fuel)
      case None => None
      case Some(s) =>
        if c in data then
          match Collapse(data, c, fuel)
          case None => None
          case Some(u) => Some(s + u)
        else Some(s + {c})
  }

  /** `p` follows the children map: every id but the last has an entry, and the next id is listed in it. */
  predicate IsWalk(data: map<string, seq<string>>, p: seq<string>) {
    forall i :: 0 <= i < |p| - 1 ==> p[i] in data && p[i + 1] in data[p[i]]
  }

  ghost predicate Reaches(data: map<string, seq<string>>, g: string, x: string) {
    exists p :: |p| > 0 && p[0] == g && p[|p| - 1] == x && IsWalk(data, p)
  }

  lemma WalkCons(data: map<string, seq<string>>, g: string, p: seq<string>)
    requires g in data && |p| > 0 && p[0] in data[g] && IsWalk(data, p)
    ensures IsWalk(data, [g] + p)
  {
    var q := [g] + p;
    forall i | 0 <= i < |q| - 1 ensures q[i] in data && q[i + 1] in data[q[i]] {
      if i > 0 {
        assert q[i] == p[i - 1] && q[i + 1] == p[i];
      }
    }
  }

  /** Every id `collapseSubgroup(g)` collapses is reached from `g` through the map. */
  lemma {:induction false} CollapseWalk(data: map<string, seq<string>>, g: string, fuel: nat, x: string) returns (p: seq<string>)
    requires g in data && Collapse(data, g, fuel).Some? && x in Collapse(data, g, fuel).value
    ensures |p| > 0 && p[0] == g && p[|p| - 1] == x && IsWalk(data, p)
    decreases fuel, 0
  {
    if x == g {
      p := [g];
    } else {
      var k, q := KidsWalk(data, data[g], fuel - 1, x);
      WalkCons(data, g, q);
      p := [g] + q;
    }
  }

  lemma {:induction false} KidsWalk(data: map<string, seq<string>>, kids: seq<string>, fuel: nat, x: string)
    returns (k: nat, p: seq<string>)
    requires CollapseKids(data, kids, fuel).Some? && x in CollapseKids(data, kids, fuel).value
    ensures k < |kids| && |p| > 0 && p[0] == kids[k] && p[|p| - 1] == x && IsWalk(data, p)
    decreases fuel, 1, |kids|
  {
    var c := kids[|kids| - 1];
    var init := kids[..|kids| - 1];
    var s := CollapseKids(data, init, fuel).value;
    if x in s {
      k, p := KidsWalk(data, init, fuel, x);
    } else if c in data {
      k := |kids| - 1;
      p := CollapseWalk(data, c, fuel, x);
    } else {
      k, p := |kids| - 1, [c];
    }
  }

  /** What one listed child contributes to the collapse of the whole list. */
  lemma {:induction false} KidsMember(data: map<string, seq<string>>, kids: seq<string>, fuel: nat, i: nat)
    requires i < |kids| && CollapseKids(data, kids, fuel).Some?
    ensures kids[i] in data ==>
      (Collapse(data, kids[i], fuel).Some? && Collapse(data, kids[i], fuel).value <= CollapseKids(data, kids, fuel).value)
    ensures kids[i] !in data ==> kids[i] in CollapseKids(data, kids, fuel).value
    decreases |kids|
  {
    if i < |kids| - 1 {
      KidsMember(data, kids[..|kids| - 1], fuel, i);
    }
  }

  /** Every id reached from `g` through the map is collapsed. */
  lemma {:induction false} CollapseComplete(data: map<string, seq<string>>, g: string, fuel: nat, p: seq<string>)
    requires g in data && Collapse(data, g, fuel).Some?
    requires |p| > 0 && p[0] == g && IsWalk(data, p)
    ensures p[|p| - 1] in Collapse(data, g, fuel).value
    decreases |p|
  {
    if |p| > 1 {
      var kids := data[g];
      assert p[1] in kids;
      var i :| 0 <= i < |kids| && kids[i] == p[1];
      KidsMember(data, kids, fuel - 1, i);
      if p[1] in data {
        var q := p[1..];
        assert IsWalk(data, q) by {
          forall j | 0 <= j < |q| - 1 ensures q[j] in data && q[j + 1] in data[q[j]] {
            assert q[j] == p[j + 1] && q[j + 1] == p[j + 2];
          }
        }
        CollapseComplete(data, p[1], fuel - 1, q);
      } else {
        assert |p| == 2;
      }
    }
  }

  /** When it finishes, `collapseSubgroup(g)` collapses exactly the ids reached from `g`. */
  lemma CollapseExact(data: map<string, seq<string>>, g: string, fuel: nat)
    requires g in data && Collapse(data, g, fuel).Some?
    ensures forall x :: x in Collapse(data, g, fuel).value <==> Reaches(data, g, x)
  {
    forall x ensures x in Collapse(data, g, fuel).value <==> Reaches(data, g, x) {
      if x in Collapse(data, g, fuel).value {
        var p := CollapseWalk(data, g, fuel, x);
      }
      if Reaches(data, g, x) {
        var p :| |p| > 0 && p[0] == g && p[|p| - 1] == x && IsWalk(data, p);
        CollapseComplete(data, g, fuel, p);
      }
    }
  }

  lemma {:induction false} KidsNone(data: map<string, seq<string>>, kids: seq<string>, fuel: nat, i: nat)
    requires i < |kids| && kids[i] in data && Collapse(data, kids[i], fuel).None?
    ensures CollapseKids(data, kids, fuel).None?
    decreases |kids|
  {
    if i < |kids| - 1 {
      KidsNone(data, kids[..|kids| - 1], fuel, i);
    }
  }

  /** A group listed among its own children never finishes collapsing, whatever the depth allowed. */
  lemma {:induction false} SelfListedNeverEnds(data: map<string, seq<string>>, g: string, fuel: nat)
    requires g in data && g in data[g]
    ensures Collapse(data, g, fuel).None?
  {
    if fuel > 0 {
      SelfListedNeverEnds(data, g, fuel - 1);
      var i :| 0 <= i < |data[g]| && data[g][i] == g;
      KidsNone(data, data[g], fuel - 1, i);
    }
  }

  lemma {:induction false} KidsPrefixNone(data: map<string, seq<string>>, kids: seq<string>, fuel: nat, j: nat)
    requires j <= |kids| && CollapseKids(data, kids[..j], fuel).None?
    ensures CollapseKids(data, kids, fuel).None?
    decreases |kids| - j
  {
    if j < |kids| {
      assert kids[..j + 1][..j] == kids[..j];
      KidsPrefixNone(data, kids, fuel, j + 1);
    } else {
      assert kids[..j] == kids;
    }
  }

  /** The ids collapsed after a collapse that started from the collapsed set `before`. */
  function After(before: set<string>, r: Option<set<string>>): Option<set<string>> {
    match r
    case None => None
    case Some(s) => Some(before + s)
  }

  /**
   * `collapseSubgroup`: collapse `g`, then each listed child in turn,
   * recursing into the ones with an entry. None when the calls nest deeper
   * than `fuel`.
   */
  method CollapseSubgroup(data: map<string, seq<string>>, g: string, fuel: nat, collapsed: set<string>)
    returns (r: Option<set<string>>)
    requires g in data
    ensures r == After(collapsed, Collapse(data, g, fuel))
    decreases fuel
  {
    if fuel == 0 {
      assert Collapse(data, g, fuel) == None;
      return None;
    }
    var acc := collapsed + {g};
    var kids := data[g];
    var i: nat := 0;
    while i < |kids|
      invariant i <= |kids|
      invariant CollapseKids(data, kids[..i], fuel - 1).Some?
      invariant acc == collapsed + {g} + CollapseKids(data, kids[..i], fuel - 1).value
    {
      var c := kids[i];
      assert kids[..i + 1][..i] == kids[..i];
      if c in data {
        var sub := CollapseSubgroup(data, c, fuel - 1, acc);
        if sub.None? {
          KidsPrefixNone(data, kids, fuel - 1, i + 1);
          return None;
        }
        acc := sub.value;
      } else {
        acc := acc + {c};
      }
      i := i + 1;
    }
    assert kids[..i] == kids;
    var k := CollapseKids(data, kids, fuel - 1).value;
    assert Collapse(data, g, fuel) == Some({g} + k);
    assert acc == collapsed + ({g} + k);
    r := Some(acc);
  }

  // ---------------------------------------------------------------------
  // The chevron and the click handler.

  const ArrowRight: string := "arrow-right"
  const ArrowDown: string := "arrow-down"

  /** `isChevronCollapsed`: the chevron shows the right arrow. */
  predicate IsChevronCollapsed(classes: set<string>) {
    ArrowRight in classes
  }

  /** `toggleChevronCollapsed`: swap the arrow style for the one the new state calls for. */
  function ToggleChevron(classes: set<string>, collapsed: bool): (r: set<string>)
    ensures IsChevronCollapsed(r) == collapsed
    ensures ArrowDown in r <==> !collapsed
    ensures forall c :: c != ArrowRight && c != ArrowDown ==> (c in r <==> c in classes)
  {
    if collapsed then classes - {ArrowDown} + {ArrowRight} else classes - {ArrowRight} + {ArrowDown}
  }

  /** One attribute of the toggle element. */
  datatype Attr = Attr(name: string, value: string)

  predicate IsDataAttr(a: Attr) {
    |a.name| >= 5 && a.name[..5] == "data-"
  }

  /** The value of the first `data-` attribute, or "0" when there is none. */
  function GroupIdOf(attrs: seq<Attr>): (r: string)
    ensures (forall i :: 0 <= i < |attrs| ==> !IsDataAttr(attrs[i])) ==> r == "0"
    ensures forall k ::
      (0 <= k < |attrs| && IsDataAttr(attrs[k]) && (forall i :: 0 <= i < k ==> !IsDataAttr(attrs[i]))) ==> r == attrs[k].value
  {
    if attrs == [] then "0"
    else if IsDataAttr(attrs[0]) then attrs[0].value
    else GroupIdOf(attrs[1..])
  }

  /** The handler's scan of the toggle's attributes, stopping at the first `data-` one. */
  method FindGroupId(attrs: seq<Attr>) returns (groupId: string)
    ensures groupId == GroupIdOf(attrs)
  {
    groupId := "0";
    var i: nat := 0;
    while i < |attrs|
      invariant i <= |attrs|
      invariant forall j :: 0 <= j < i ==> !IsDataAttr(attrs[j])
      invariant groupId == "0"
    {
      if IsDataAttr(attrs[i]) {
        groupId := attrs[i].value;
        return;
      }
      i := i + 1;
    }
  }

  /**
   * The chevron's click handler over the set of collapsed group ids. The new
   * state is the opposite of the clicked group's; a group being collapsed
   * that has an entry in `data` has its subtree collapsed too. None when
   * that collapse nests deeper than `fuel`.
   */
  method OnClick(data: map<string, seq<string>>, collapsed: set<string>, attrs: seq<Attr>, fuel: nat)
    returns (r: Option<set<string>>)
    ensures var g := GroupIdOf(attrs);
      && (g in collapsed ==> r == Some(collapsed - {g}))
      && (g !in collapsed && g !in data ==> r == Some(collapsed + {g}))
      && (g !in collapsed && g in data ==> r == After(collapsed + {g}, Collapse(data, g, fuel)))
  {
    var groupId := FindGroupId(attrs);
    var collapse := groupId !in collapsed;
    var state := if collapse then collapsed + {groupId} else collapsed - {groupId};
    if collapse && groupId in data {
      r := CollapseSubgroup(data, groupId, fuel, state);
    } else {
      r := Some(state);
    }
  }

  /**
   * A click flips the clicked group; expanding changes nothing else; a
   * finished collapse leaves every group reached from the clicked one
   * collapsed and expands nothing.
   */
  lemma ClickMeaning(data: map<string, seq<string>>, collapsed: set<string>, g: string, r: Option<set<string>>, fuel: nat)
    requires g in collapsed ==> r == Some(collapsed - {g})
    requires g !in collapsed && g !in data ==> r == Some(collapsed + {g})
    requires g !in collapsed && g in data ==> r == After(collapsed + {g}, Collapse(data, g, fuel))
    requires r.Some?
    ensures g in r.value <==> g !in collapsed
    ensures g in collapsed ==> forall x :: x != g ==> (x in r.value <==> x in collapsed)
    ensures g !in collapsed ==> collapsed <= r.value
    ensures g !in collapsed && g in data ==> forall x :: Reaches(data, g, x) ==> x in r.value
    ensures g !in collapsed ==> forall x :: x in r.value && x !in collapsed ==> Reaches(data, g, x)
  {
    if g !in collapsed {
      if g in data {
        CollapseExact(data, g, fuel);
      } else {
        forall x | x in r.value && x !in collapsed ensures Reaches(data, g, x) {
          assert x == g;
          var p := [g];
          assert p[0] == g && p[|p| - 1] == x && IsWalk(data, p);
        }
      }
    }
  }
}
