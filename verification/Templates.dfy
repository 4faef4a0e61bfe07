/** RDP templates: how they merge into the parameters of an .rdp file, and the table that holds them. */
module Templates {
  import opened Basics
  import Numerals

  datatype Value = Int(i: int) | Text(s: string) | Flag(b: bool) | Float(r: real)

  type Params = map<string, Value>

  datatype Template = Template(
    id: int, name: string, isDefault: bool, priority: int, params: Params, groups: seq<string>)

  /** The defaults of the parameter schema. */
  function DefaultRdpParams(): Params {
    map["screen mode id" := Int(2), "desktopwidth" := Int(1920), "desktopheight" := Int(1080),
        "session bpp" := Int(32), "use multimon" := Int(0),
        "audiomode" := Int(0), "audiocapturemode" := Int(0), "keyboardhook" := Int(2),
        "redirectclipboard" := Int(1), "redirectprinters" := Int(1), "redirectdrives" := Int(1),
        "redirectsmartcards" := Int(1),
        "disable wallpaper" := Int(0), "allow font smoothing" := Int(1), "allow desktop composition" := Int(1),
        "bitmapcachepersistenable" := Int(1), "autoreconnection enabled" := Int(1)]
  }

  /** The values that no template can override. */
  function SystemParams(host: string, port: int, token: string): Params {
    map["networkautodetect" := Int(0), "bandwidthautodetect" := Int(1), "connection type" := Int(6),
        "use redirection server name" := Int(0), "full address" := Text(host + ":" + Numerals.Decimal(port)),
        "loadbalanceinfo" := Text(token), "negotiate security layer" := Int(1),
        "enablecredsspsupport" := Int(0), "authentication level" := Int(2)]
  }

  function Lookup(m: Params, k: string): Option<Value> {
    if k in m then Some(m[k]) else None
  }

  /** The system value of each key that has one. */
  ghost function SystemValue(k: string, host: string, port: int, token: string): Option<Value> {
    match k
    case "full address" => Some(Text(host + ":" + Numerals.Decimal(port)))
    case "loadbalanceinfo" => Some(Text(token))
    case "connection type" => Some(Int(6))
    case "authentication level" => Some(Int(2))
    case "bandwidthautodetect" => Some(Int(1))
    case "negotiate security layer" => Some(Int(1))
    case "networkautodetect" => Some(Int(0))
    case "use redirection server name" => Some(Int(0))
    case "enablecredsspsupport" => Some(Int(0))
    case _ => None
  }

  /** The schema's default of each key that has one. */
  ghost function SchemaValue(k: string): Option<Value> {
    match k
    case "screen mode id" => Some(Int(2))
    case "desktopwidth" => Some(Int(1920))
    case "desktopheight" => Some(Int(1080))
    case "session bpp" => Some(Int(32))
    case "keyboardhook" => Some(Int(2))
    case "use multimon" => Some(Int(0))
    case "audiomode" => Some(Int(0))
    case "audiocapturemode" => Some(Int(0))
    case "disable wallpaper" => Some(Int(0))
    case "redirectclipboard" => Some(Int(1))
    case "redirectprinters" => Some(Int(1))
    case "redirectdrives" => Some(Int(1))
    case "redirectsmartcards" => Some(Int(1))
    case "allow font smoothing" => Some(Int(1))
    case "allow desktop composition" => Some(Int(1))
    case "bitmapcachepersistenable" => Some(Int(1))
    case "autoreconnection enabled" => Some(Int(1))
    case _ => None
  }

  lemma DefaultsAreSchema(k: string)
    ensures Lookup(DefaultRdpParams(), k) == SchemaValue(k)
  {
  }

  lemma SystemParamsAre(k: string, host: string, port: int, token: string)
    ensures Lookup(SystemParams(host, port, token), k) == SystemValue(k, host, port, token)
  {
  }

  // ---- which templates apply ----

  /** The caller's groups, trimmed and in lower case; blank ones do not count. */
  function GroupSet(groups: seq<string>): set<string> {
    set v | v in groups && Strip(v) != [] :: Lower(Strip(v))
  }

  function Bindings(t: Template): set<string> {
    set g | g in t.groups :: Lower(g)
  }

  predicate Applies(t: Template, groupSet: set<string>) {
    !t.isDefault && (Bindings(t) == {} || Bindings(t) * groupSet != {})
  }

  /** The template applies and defines the key. */
  predicate Defines(t: Template, groupSet: set<string>, k: string) {
    Applies(t, groupSet) && k in t.params
  }

  /** The caller's group `u`, stripped, is the group `g` but for upper and lower case. */
  ghost predicate SameGroup(g: string, u: string) {
    exists core :: Trims(u, core) && core != "" && SameLetters(core, g)
  }

  lemma SameGroupIff(g: string, u: string)
    ensures SameGroup(g, u) <==> Strip(u) != "" && Lower(Strip(u)) == Lower(g)
  {
    LoweredAlike(Strip(u), Lower(Strip(u)), g, Lower(g));
    forall core | Trims(u, core)
      ensures core == Strip(u)
    {
      TrimsOneWay(u, core, Strip(u));
    }
  }

  lemma SharedFound(t: Template, groups: seq<string>, g: string, u: string)
    requires g in t.groups && u in groups && SameGroup(g, u)
    ensures Bindings(t) * GroupSet(groups) != {}
  {
    SameGroupIff(g, u);
    assert Lower(g) in Bindings(t) && Lower(Strip(u)) in GroupSet(groups);
    assert Lower(g) in Bindings(t) * GroupSet(groups);
  }

  lemma SharedGroup(t: Template, groups: seq<string>) returns (g: string, u: string)
    requires Bindings(t) * GroupSet(groups) != {}
    ensures g in t.groups && u in groups && SameGroup(g, u)
  {
    var x :| x in Bindings(t) * GroupSet(groups);
    g :| g in t.groups && Lower(g) == x;
    u :| u in groups && Strip(u) != [] && Lower(Strip(u)) == x;
    SameGroupIff(g, u);
  }

  /** A template applies if it is not the default one and is for everybody or for one of the caller's groups. */
  lemma AppliesIff(t: Template, groups: seq<string>)
    ensures Applies(t, GroupSet(groups))
      <==> !t.isDefault && (t.groups == [] || exists g, u :: g in t.groups && u in groups && SameGroup(g, u))
  {
    if t.groups != [] {
      assert t.groups[0] in t.groups && Lower(t.groups[0]) in Bindings(t);
    }
    if Bindings(t) * GroupSet(groups) != {} {
      var g, u := SharedGroup(t, groups);
    } else if g, u :| g in t.groups && u in groups && SameGroup(g, u) {
      SharedFound(t, groups, g, u);
    }
  }

  function FirstDefault(rows: seq<Template>): (r: Option<Template>)
    ensures r.Some? ==> exists i :: IsFirstDefault(rows, i) && rows[i] == r.value
    ensures r.None? ==> forall i :: 0 <= i < |rows| ==> !rows[i].isDefault
  {
    if rows == [] then None
    else if rows[0].isDefault then
      assert IsFirstDefault(rows, 0);
      Some(rows[0])
    else
      var r := FirstDefault(rows[1..]);
      assert forall i :: IsFirstDefault(rows[1..], i) ==> IsFirstDefault(rows, i + 1) && rows[1..][i] == rows[i + 1];
      r
  }

  predicate IsFirstDefault(rows: seq<Template>, i: int) {
    0 <= i < |rows| && rows[i].isDefault && forall j :: 0 <= j < i ==> !rows[j].isDefault
  }

  // ---- the meaning of a merge, without sorting or folding ----

  /** Row `j` gives way to row `i`: a lower priority, or the same one and an earlier row. */
  predicate GivesWay(rows: seq<Template>, j: int, i: int)
    requires 0 <= i < |rows| && 0 <= j < |rows|
  {
    rows[j].priority < rows[i].priority || (rows[j].priority == rows[i].priority && j <= i)
  }

  ghost predicate Wins(rows: seq<Template>, groupSet: set<string>, k: string, i: int) {
    && 0 <= i < |rows| && Defines(rows[i], groupSet, k)
    && forall j :: 0 <= j < |rows| && Defines(rows[j], groupSet, k) ==> GivesWay(rows, j, i)
  }

  /** The value of `k` when no template that applies defines it. */
  function Base(rows: seq<Template>, k: string): Option<Value> {
    var d := FirstDefault(rows);
    if d.Some? && k in d.value.params then Some(d.value.params[k]) else Lookup(DefaultRdpParams(), k)
  }

  /** `v` is the value of `k`: the winner's, else the default template's, else the schema's. */
  ghost predicate Effective(rows: seq<Template>, groupSet: set<string>, k: string, v: Option<Value>) {
    && (forall i :: Wins(rows, groupSet, k, i) ==> v == Some(rows[i].params[k]))
    && ((forall i :: !Wins(rows, groupSet, k, i)) ==> v == Base(rows, k))
  }

  // ---- the stable sort ----

  /** `t` comes before the first row whose priority is not lower. */
  function Insert(t: Template, sorted: seq<Template>): seq<Template> {
    if sorted == [] || t.priority <= sorted[0].priority then [t] + sorted
    else [sorted[0]] + Insert(t, sorted[1..])
  }

  function SortedByPriority(rows: seq<Template>): seq<Template> {
    if rows == [] then [] else Insert(rows[0], SortedByPriority(rows[1..]))
  }

  predicate Ascending(s: seq<Template>) {
    forall i, j :: 0 <= i < j < |s| ==> s[i].priority <= s[j].priority
  }

  lemma {:induction false} InsertAdds(t: Template, s: seq<Template>)
    ensures multiset(Insert(t, s)) == multiset{t} + multiset(s)
    ensures forall u :: u in Insert(t, s) <==> u == t || u in s
  {
    if s == [] || t.priority <= s[0].priority {
    } else {
      InsertAdds(t, s[1..]);
      assert s == [s[0]] + s[1..];
    }
  }

  lemma {:induction false} InsertKeepsOrder(t: Template, s: seq<Template>)
    requires Ascending(s)
    ensures Ascending(Insert(t, s))
  {
    if s == [] || t.priority <= s[0].priority {
    } else {
      var rest := Insert(t, s[1..]);
      InsertKeepsOrder(t, s[1..]);
      InsertAdds(t, s[1..]);
      forall i | 0 <= i < |rest|
        ensures s[0].priority <= rest[i].priority
      {
        assert rest[i] in rest;
      }
    }
  }

  /** The sort gives the same rows in ascending order; that it is stable shows in `LastOfSortedWins`. */
  lemma {:induction false} SortIsSorted(rows: seq<Template>)
    ensures Ascending(SortedByPriority(rows)) && multiset(SortedByPriority(rows)) == multiset(rows)
  {
    if rows != [] {
      SortIsSorted(rows[1..]);
      InsertKeepsOrder(rows[0], SortedByPriority(rows[1..]));
      InsertAdds(rows[0], SortedByPriority(rows[1..]));
      assert rows == [rows[0]] + rows[1..];
    }
  }

  /** The last template in `s` that applies and defines `k`. */
  function LastDefining(s: seq<Template>, groupSet: set<string>, k: string): (r: Option<Template>)
    ensures r.Some? ==> r.value in s && Defines(r.value, groupSet, k)
    ensures r.None? ==> forall t :: t in s ==> !Defines(t, groupSet, k)
  {
    if s == [] then None
    else if Defines(s[|s| - 1], groupSet, k) then Some(s[|s| - 1])
    else
      var r := LastDefining(s[..|s| - 1], groupSet, k);
      assert s == s[..|s| - 1] + [s[|s| - 1]];
      r
  }

  lemma {:induction false} LastDefiningCons(t: Template, s: seq<Template>, groupSet: set<string>, k: string)
    ensures LastDefining([t] + s, groupSet, k)
      == if LastDefining(s, groupSet, k).Some? then LastDefining(s, groupSet, k)
         else if Defines(t, groupSet, k) then Some(t) else None
  {
    var all := [t] + s;
    if s == [] {
      assert all[..0] == [];
    } else {
      LastDefiningCons(t, s[..|s| - 1], groupSet, k);
      assert all[..|all| - 1] == [t] + s[..|s| - 1];
    }
  }

  /** Inserting `t` changes who is last only when nobody of at least `t`'s priority defines the key. */
  lemma {:induction false} LastAfterInsert(t: Template, s: seq<Template>, groupSet: set<string>, k: string)
    requires Ascending(s)
    ensures var last := LastDefining(s, groupSet, k);
      LastDefining(Insert(t, s), groupSet, k)
      == if Defines(t, groupSet, k) && (last.None? || last.value.priority < t.priority) then Some(t) else last
  {
    if s == [] || t.priority <= s[0].priority {
      LastDefiningCons(t, s, groupSet, k);
      var last := LastDefining(s, groupSet, k);
      if last.Some? {
        assert s[0].priority <= last.value.priority;
      }
    } else {
      LastAfterInsert(t, s[1..], groupSet, k);
      LastDefiningCons(s[0], s[1..], groupSet, k);
      LastDefiningCons(s[0], Insert(t, s[1..]), groupSet, k);
      assert s == [s[0]] + s[1..];
    }
  }

  /** The last definer in sorted order is the winner among the rows. */
  lemma {:induction false} LastOfSortedWins(rows: seq<Template>, groupSet: set<string>, k: string) returns (i: int)
    ensures var last := LastDefining(SortedByPriority(rows), groupSet, k);
      if last.Some? then Wins(rows, groupSet, k, i) && rows[i] == last.value
      else forall j :: 0 <= j < |rows| ==> !Defines(rows[j], groupSet, k)
  {
    i := 0;
    if rows != [] {
      var t, rest := rows[0], rows[1..];
      var i' := LastOfSortedWins(rest, groupSet, k);
      SortIsSorted(rest);
      LastAfterInsert(t, SortedByPriority(rest), groupSet, k);
      var last := LastDefining(SortedByPriority(rest), groupSet, k);
      if last.Some? && !(Defines(t, groupSet, k) && last.value.priority < t.priority) {
        i := i' + 1;
      }
      forall j | 0 <= j < |rows| && Defines(rows[j], groupSet, k)
                 && LastDefining(SortedByPriority(rows), groupSet, k).Some?
        ensures GivesWay(rows, j, i)
      {
        if j > 0 {
          assert Defines(rest[j - 1], groupSet, k);
          assert last.Some? ==> GivesWay(rest, j - 1, i');
        }
      }
      forall j | 0 <= j < |rows| && LastDefining(SortedByPriority(rows), groupSet, k).None?
        ensures !Defines(rows[j], groupSet, k)
      {
        if j > 0 {
          assert rows[j] == rest[j - 1];
        }
      }
    }
  }

  lemma OnlyOneWinner(rows: seq<Template>, groupSet: set<string>, k: string, i: int, j: int)
    requires Wins(rows, groupSet, k, i) && Wins(rows, groupSet, k, j)
    ensures i == j
  {
    assert GivesWay(rows, i, j) && GivesWay(rows, j, i);
  }

  /** Folding the applicable templates over the base in sorted order gives every key its effective value. */
  lemma FoldIsEffective(rows: seq<Template>, groupSet: set<string>, k: string, v: Option<Value>)
    requires var last := LastDefining(SortedByPriority(rows), groupSet, k);
      v == if last.Some? then Some(last.value.params[k]) else Base(rows, k)
    ensures Effective(rows, groupSet, k, v)
  {
    var i := LastOfSortedWins(rows, groupSet, k);
    forall j | Wins(rows, groupSet, k, j)
      ensures v == Some(rows[j].params[k])
    {
      if LastDefining(SortedByPriority(rows), groupSet, k).Some? {
        OnlyOneWinner(rows, groupSet, k, i, j);
      }
    }
  }

  // ---- the two merges of the code ----

  /** The value of `k` once the templates in `prefix` are folded over the base. */
  function FoldValue(rows: seq<Template>, prefix: seq<Template>, groupSet: set<string>, k: string): Option<Value> {
    var last := LastDefining(prefix, groupSet, k);
    if last.Some? then Some(last.value.params[k]) else Base(rows, k)
  }

  ghost predicate Folded(rows: seq<Template>, prefix: seq<Template>, groupSet: set<string>, merged: Params) {
    forall k :: Lookup(merged, k) == FoldValue(rows, prefix, groupSet, k)
  }

  lemma FoldOneMore(rows: seq<Template>, sorted: seq<Template>, i: nat, groupSet: set<string>, merged: Params)
    requires i < |sorted| && Folded(rows, sorted[..i], groupSet, merged)
    ensures Folded(rows, sorted[..i + 1], groupSet,
                   if Applies(sorted[i], groupSet) then merged + sorted[i].params else merged)
  {
    assert sorted[..i + 1][..i] == sorted[..i];
    var next := if Applies(sorted[i], groupSet) then merged + sorted[i].params else merged;
    forall k
      ensures Lookup(next, k) == FoldValue(rows, sorted[..i + 1], groupSet, k)
    {
      assert Lookup(merged, k) == FoldValue(rows, sorted[..i], groupSet, k);
    }
  }

  ghost predicate AllEffective(rows: seq<Template>, groupSet: set<string>, merged: Params) {
    forall k :: Effective(rows, groupSet, k, Lookup(merged, k))
  }

  lemma FoldedIsEffective(rows: seq<Template>, groupSet: set<string>, merged: Params)
    requires Folded(rows, SortedByPriority(rows), groupSet, merged)
    ensures AllEffective(rows, groupSet, merged)
  {
    forall k
      ensures Effective(rows, groupSet, k, Lookup(merged, k))
    {
      FoldIsEffective(rows, groupSet, k, Lookup(merged, k));
    }
  }

  /** The admin service's preview. */
  method Preview(rows: seq<Template>, groups: seq<string>) returns (merged: Params)
    ensures AllEffective(rows, GroupSet(groups), merged)
  {
    var groupSet := GroupSet(groups);
    var defaultTpl := FirstDefault(rows);
    merged := DefaultRdpParams();
    if defaultTpl.Some? {
      merged := merged + defaultTpl.value.params;
    }
    var sorted := SortedByPriority(rows);
    for i := 0 to |sorted|
      invariant Folded(rows, sorted[..i], groupSet, merged)
    {
      FoldOneMore(rows, sorted, i, groupSet, merged);
      var t := sorted[i];
      if t.isDefault {
        continue;
      }
      var binds := Bindings(t);
      if binds != {} && binds * groupSet == {} {
        continue;
      }
      merged := merged + t.params;
    }
    assert sorted[..|sorted|] == sorted;
    FoldedIsEffective(rows, groupSet, merged);
  }

  /** Every key of `system` has its value there, every other key its effective one. */
  ghost predicate IsContent(rows: seq<Template>, groupSet: set<string>, system: Params, content: Params) {
    && (forall k :: k in system ==> Lookup(content, k) == Some(system[k]))
    && (forall k :: k !in system ==> Effective(rows, groupSet, k, Lookup(content, k)))
  }

  lemma SystemOverrides(rows: seq<Template>, groupSet: set<string>, merged: Params, system: Params, content: Params)
    requires AllEffective(rows, groupSet, merged) && content == merged + system
    ensures IsContent(rows, groupSet, system, content)
  {
    forall k | k !in system
      ensures Effective(rows, groupSet, k, Lookup(content, k))
    {
      assert Lookup(content, k) == Lookup(merged, k);
    }
  }

  method Override(merged: Params, host: string, port: int, token: string) returns (content: Params)
    ensures content == merged + SystemParams(host, port, token)
  {
    content := merged;
    content := content["networkautodetect" := Int(0)];
    content := content["bandwidthautodetect" := Int(1)];
    content := content["connection type" := Int(6)];
    content := content["use redirection server name" := Int(0)];
    content := content["full address" := Text(host + ":" + Numerals.Decimal(port))];
    content := content["loadbalanceinfo" := Text(token)];
    content := content["negotiate security layer" := Int(1)];
    content := content["enablecredsspsupport" := Int(0)];
    content := content["authentication level" := Int(2)];
  }

  /** The portal's build, up to rendering; without a database there are no rows. */
  method BuildRdpContent(rows: Option<seq<Template>>, userGroupGuids: seq<string>,
                         host: string, port: int, token: string)
    returns (content: Params)
    ensures IsContent(rows.GetOr([]), GroupSet(userGroupGuids), SystemParams(host, port, token), content)
    ensures forall k :: SystemValue(k, host, port, token).Some? ==>
      Lookup(content, k) == SystemValue(k, host, port, token)
    ensures forall k :: SystemValue(k, host, port, token).None? ==>
      Effective(rows.GetOr([]), GroupSet(userGroupGuids), k, Lookup(content, k))
  {
    var merged := DefaultRdpParams();
    ghost var all, groups := rows.GetOr([]), GroupSet(userGroupGuids);
    if rows.Some? {
      var templates := rows.value;
      var defaultTpl := FirstDefault(templates);
      if defaultTpl.Some? {
        merged := merged + defaultTpl.value.params;
      }
      var groupSet := GroupSet(userGroupGuids);
      var sorted := SortedByPriority(templates);
      for i := 0 to |sorted|
        invariant Folded(all, sorted[..i], groupSet, merged)
      {
        FoldOneMore(all, sorted, i, groupSet, merged);
        var t := sorted[i];
        if t.isDefault {
          continue;
        }
        var binds := Bindings(t);
        if binds != {} && binds * groupSet == {} {
          continue;
        }
        merged := merged + t.params;
      }
      assert sorted[..|sorted|] == sorted;
    }
    FoldedIsEffective(all, groups, merged);
    content := Override(merged, host, port, token);
    SystemOverrides(all, groups, merged, SystemParams(host, port, token), content);
    forall k
      ensures Lookup(SystemParams(host, port, token), k) == SystemValue(k, host, port, token)
    {
      SystemParamsAre(k, host, port, token);
    }
  }

  // ---- what the merge promises ----

  lemma EffectiveIsUnique(rows: seq<Template>, groupSet: set<string>, k: string, v: Option<Value>, w: Option<Value>)
    requires Effective(rows, groupSet, k, v) && Effective(rows, groupSet, k, w)
    ensures v == w
  {
    if i :| Wins(rows, groupSet, k, i) {
      assert v == Some(rows[i].params[k]) == w;
    }
  }

  /** Where no template defines a key, its value is that of the first default template, else the schema's. */
  lemma EffectiveWithoutTemplates(rows: seq<Template>, groupSet: set<string>, k: string, v: Option<Value>)
    requires Effective(rows, groupSet, k, v)
    requires forall i :: 0 <= i < |rows| && !rows[i].isDefault ==> k !in rows[i].params
    ensures forall i :: IsFirstDefault(rows, i) && k in rows[i].params ==> v == Some(rows[i].params[k])
    ensures (forall i :: IsFirstDefault(rows, i) ==> k !in rows[i].params) ==> v == SchemaValue(k)
  {
    DefaultsAreSchema(k);
    assert forall i :: !Wins(rows, groupSet, k, i);
    forall i | IsFirstDefault(rows, i)
      ensures FirstDefault(rows) == Some(rows[i])
    {
      var j :| IsFirstDefault(rows, j) && rows[j] == FirstDefault(rows).value;
      assert i == j;
    }
  }

  /** What the portal builds is what the preview shows, overridden by the system values. */
  lemma ContentIsPreviewPlusSystem(rows: seq<Template>, groups: seq<string>, system: Params,
                                   preview: Params, content: Params)
    requires AllEffective(rows, GroupSet(groups), preview)
    requires IsContent(rows, GroupSet(groups), system, content)
    ensures content == preview + system
  {
    forall k
      ensures Lookup(content, k) == Lookup(preview + system, k)
    {
      if k !in system {
        EffectiveIsUnique(rows, GroupSet(groups), k, Lookup(content, k), Lookup(preview, k));
      }
    }
    SameLookups(content, preview + system);
  }

  lemma SameLookups(a: Params, b: Params)
    requires forall k :: Lookup(a, k) == Lookup(b, k)
    ensures a == b
  {
    forall k
      ensures k in a <==> k in b
      ensures k in a && k in b ==> a[k] == b[k]
    {
      assert Lookup(a, k) == Lookup(b, k);
    }
  }

  ghost predicate DistinctPriorities(rows: seq<Template>, groupSet: set<string>) {
    forall i, j :: 0 <= i < j < |rows| && Applies(rows[i], groupSet) && Applies(rows[j], groupSet) ==>
      rows[i].priority != rows[j].priority
  }

  ghost predicate AtMostOneDefault(rows: seq<Template>) {
    forall i, j :: 0 <= i < j < |rows| ==> !(rows[i].isDefault && rows[j].isDefault)
  }

  lemma {:induction false} FirstDefaultIs(rows: seq<Template>, i: int)
    requires AtMostOneDefault(rows) && 0 <= i < |rows| && rows[i].isDefault
    ensures FirstDefault(rows) == Some(rows[i])
  {
    if i > 0 {
      FirstDefaultIs(rows[1..], i - 1);
    }
  }

  lemma {:induction false} NoDefault(rows: seq<Template>)
    requires FirstDefault(rows).Some?
    ensures exists i :: 0 <= i < |rows| && rows[i].isDefault
  {
    if !rows[0].isDefault {
      NoDefault(rows[1..]);
      var i :| 0 <= i < |rows[1..]| && rows[1..][i].isDefault;
      assert rows[i + 1].isDefault;
    }
  }

  ghost predicate SameRows(rows: seq<Template>, rows': seq<Template>) {
    multiset(rows) == multiset(rows')
  }

  lemma Elsewhere(rows: seq<Template>, rows': seq<Template>, i: int) returns (j: int)
    requires SameRows(rows, rows') && 0 <= i < |rows|
    ensures 0 <= j < |rows'| && rows'[j] == rows[i]
  {
    assert rows[i] in multiset(rows');
    j :| 0 <= j < |rows'| && rows'[j] == rows[i];
  }

  lemma CountTwice(s: seq<Template>, i: int, j: int)
    requires 0 <= i < j < |s| && s[i] == s[j]
    ensures multiset(s)[s[i]] >= 2
  {
    assert s == s[..j] + [s[j]] + s[j + 1..];
    assert s[i] in s[..j];
  }

  lemma CountOnce(s: seq<Template>, i: int)
    requires 0 <= i < |s| && forall j :: 0 <= j < |s| && j != i ==> s[j] != s[i]
    ensures multiset(s)[s[i]] == 1
  {
    assert s == s[..i] + [s[i]] + s[i + 1..];
    assert s[i] !in s[..i] && s[i] !in s[i + 1..];
  }

  lemma StillOneDefault(rows: seq<Template>, rows': seq<Template>)
    requires SameRows(rows, rows') && AtMostOneDefault(rows)
    ensures AtMostOneDefault(rows')
  {
    forall i, j | 0 <= i < j < |rows'|
      ensures !(rows'[i].isDefault && rows'[j].isDefault)
    {
      if rows'[i].isDefault && rows'[j].isDefault {
        var p := Elsewhere(rows', rows, i);
        var q := Elsewhere(rows', rows, j);
        CountOnce(rows, p);
        CountTwice(rows', i, j);
      }
    }
  }

  lemma SameDefault(rows: seq<Template>, rows': seq<Template>)
    requires SameRows(rows, rows') && AtMostOneDefault(rows)
    ensures FirstDefault(rows) == FirstDefault(rows')
  {
    StillOneDefault(rows, rows');
    if FirstDefault(rows').Some? {
      NoDefault(rows');
      var j :| 0 <= j < |rows'| && rows'[j].isDefault;
      var i := Elsewhere(rows', rows, j);
      FirstDefaultIs(rows, i);
      FirstDefaultIs(rows', j);
    } else if FirstDefault(rows).Some? {
      NoDefault(rows);
      var i :| 0 <= i < |rows| && rows[i].isDefault;
      var j := Elsewhere(rows, rows', i);
      FirstDefaultIs(rows', j);
    }
  }

  /** Row `i` defines the key, and no template that applies and defines it has a higher priority. */
  ghost predicate Top(rows: seq<Template>, groupSet: set<string>, k: string, i: int) {
    && 0 <= i < |rows| && Defines(rows[i], groupSet, k)
    && forall j :: 0 <= j < |rows| && Defines(rows[j], groupSet, k) ==> rows[j].priority <= rows[i].priority
  }

  /** Wherever several templates share the highest priority for a key, they give it one value. */
  ghost predicate TopsAgree(rows: seq<Template>, groupSet: set<string>) {
    forall k, i, j :: Top(rows, groupSet, k, i) && Top(rows, groupSet, k, j) ==>
      rows[i].params[k] == rows[j].params[k]
  }

  /** `rows[i]` moved behind all the others. */
  function MovedLast(rows: seq<Template>, i: nat): (r: seq<Template>)
    requires i < |rows|
    ensures SameRows(rows, r) && |r| == |rows| && r[|rows| - 1] == rows[i]
  {
    assert rows == rows[..i] + [rows[i]] + rows[i + 1..];
    rows[..i] + rows[i + 1..] + [rows[i]]
  }

  /** A top row wins once it is the last one. */
  lemma TopWinsLast(rows: seq<Template>, groupSet: set<string>, k: string, i: int)
    requires Top(rows, groupSet, k, i)
    ensures Wins(MovedLast(rows, i), groupSet, k, |rows| - 1)
  {
    var moved := MovedLast(rows, i);
    forall j | 0 <= j < |moved| && Defines(moved[j], groupSet, k)
      ensures GivesWay(moved, j, |rows| - 1)
    {
      var j' := Elsewhere(moved, rows, j);
      assert Defines(rows[j'], groupSet, k);
    }
  }

  /** Two top rows with different values: each order of the rows that ends with one of them decides for it. */
  lemma EqualPrioritiesDependOnOrder(rows: seq<Template>, groupSet: set<string>, k: string, i: int, v: Option<Value>)
    requires Top(rows, groupSet, k, i) && Effective(MovedLast(rows, i), groupSet, k, v)
    ensures v == Some(rows[i].params[k])
  {
    TopWinsLast(rows, groupSet, k, i);
  }

  /** Where the tops agree every order gives a key its value. */
  lemma SameEverywhere(rows: seq<Template>, rows': seq<Template>, groupSet: set<string>, k: string, v: Option<Value>)
    requires SameRows(rows, rows') && AtMostOneDefault(rows) && TopsAgree(rows, groupSet)
    requires Effective(rows, groupSet, k, v)
    ensures Effective(rows', groupSet, k, v)
  {
    SameDefault(rows, rows');
    var w := LastOfSortedWins(rows, groupSet, k);
    var w' := LastOfSortedWins(rows', groupSet, k);
    forall j | Wins(rows', groupSet, k, j)
      ensures v == Some(rows'[j].params[k])
    {
      var i := Elsewhere(rows', rows, j);
      assert Defines(rows[i], groupSet, k) && Wins(rows, groupSet, k, w);
      assert Top(rows, groupSet, k, w);
      var w'' := Elsewhere(rows, rows', w);
      assert GivesWay(rows', w'', j);
      assert Top(rows, groupSet, k, i);
    }
    if forall j :: !Wins(rows', groupSet, k, j) {
      forall i | 0 <= i < |rows|
        ensures !Defines(rows[i], groupSet, k)
      {
        var j := Elsewhere(rows, rows', i);
        assert !Defines(rows'[j], groupSet, k);
      }
    }
  }

  /** Every order of the rows gives the same result exactly when the tops agree. */
  lemma OrderDoesNotMatterIff(rows: seq<Template>, groupSet: set<string>, merged: Params)
    requires AtMostOneDefault(rows) && AllEffective(rows, groupSet, merged)
    ensures (forall rows' :: SameRows(rows, rows') ==> AllEffective(rows', groupSet, merged))
       <==> TopsAgree(rows, groupSet)
  {
    if TopsAgree(rows, groupSet) {
      forall rows' | SameRows(rows, rows')
        ensures AllEffective(rows', groupSet, merged)
      {
        forall k
          ensures Effective(rows', groupSet, k, Lookup(merged, k))
        {
          assert Effective(rows, groupSet, k, Lookup(merged, k));
          SameEverywhere(rows, rows', groupSet, k, Lookup(merged, k));
        }
      }
    }
    if forall rows' :: SameRows(rows, rows') ==> AllEffective(rows', groupSet, merged) {
      forall k, i, j | Top(rows, groupSet, k, i) && Top(rows, groupSet, k, j)
        ensures rows[i].params[k] == rows[j].params[k]
      {
        assert AllEffective(MovedLast(rows, i), groupSet, merged) && AllEffective(MovedLast(rows, j), groupSet, merged);
        EqualPrioritiesDependOnOrder(rows, groupSet, k, i, Lookup(merged, k));
        EqualPrioritiesDependOnOrder(rows, groupSet, k, j, Lookup(merged, k));
      }
    }
  }

  lemma DistinctTopsAgree(rows: seq<Template>, groupSet: set<string>)
    requires DistinctPriorities(rows, groupSet)
    ensures TopsAgree(rows, groupSet)
  {
    forall k, i, j | Top(rows, groupSet, k, i) && Top(rows, groupSet, k, j)
      ensures rows[i].params[k] == rows[j].params[k]
    {
      assert rows[i].priority == rows[j].priority;
    }
  }

  /** With distinct priorities among the templates that apply, and at most one default, the order in
      which the database returns the rows does not matter. */
  lemma OrderDoesNotMatter(rows: seq<Template>, rows': seq<Template>, groupSet: set<string>, merged: Params)
    requires SameRows(rows, rows') && DistinctPriorities(rows, groupSet)
    requires AtMostOneDefault(rows) && AllEffective(rows, groupSet, merged)
    ensures AllEffective(rows', groupSet, merged)
  {
    DistinctTopsAgree(rows, groupSet);
    OrderDoesNotMatterIff(rows, groupSet, merged);
  }

  // ---- the template table ----

  datatype Outcome = Ok(template: Template) | Deleted | BadRequest | NotFound | Conflict

  /** The body of a create request. */
  datatype NewTemplate = NewTemplate(name: string, isDefault: bool, priority: nat, params: Params, groups: seq<string>)

  /** The body of an update request: a field that is None stays as it is. */
  datatype Change = Change(
    name: Option<string>, isDefault: Option<bool>, priority: Option<nat>, params: Option<Params>,
    groups: Option<seq<string>>)

  ghost predicate UniqueNames(rows: seq<Template>) {
    forall i, j :: 0 <= i < j < |rows| ==> rows[i].name != rows[j].name
  }

  ghost predicate UniqueIds(rows: seq<Template>) {
    forall i, j :: 0 <= i < j < |rows| ==> rows[i].id != rows[j].id
  }

  predicate NoDuplicates(groups: seq<string>) {
    forall i, j :: 0 <= i < j < |groups| ==> groups[i] != groups[j]
  }

  predicate HasDefault(rows: seq<Template>) {
    exists i :: 0 <= i < |rows| && rows[i].isDefault
  }

  function Demoted(rows: seq<Template>): (r: seq<Template>)
    ensures |r| == |rows| && forall i :: 0 <= i < |r| ==> r[i] == rows[i].(isDefault := false)
  {
    seq(|rows|, i requires 0 <= i < |rows| => rows[i].(isDefault := false))
  }

  /** `UPDATE ... SET is_default = false` over all rows when `demote` is set. */
  function DemotedIf(demote: bool, rows: seq<Template>): seq<Template> {
    if demote then Demoted(rows) else rows
  }

  function IndexOf(rows: seq<Template>, id: int): (r: Option<nat>)
    ensures r.Some? ==> r.value < |rows| && rows[r.value].id == id
    ensures r.None? ==> forall i :: 0 <= i < |rows| ==> rows[i].id != id
  {
    if rows == [] then None
    else if rows[0].id == id then Some(0)
    else match IndexOf(rows[1..], id)
      case None => None
      case Some(i) => Some(i + 1)
  }

  predicate NameTaken(rows: seq<Template>, name: string) {
    exists i :: 0 <= i < |rows| && rows[i].name == name
  }

  predicate AllGuids(parse: string -> Option<string>, groups: seq<string>) {
    forall i :: 0 <= i < |groups| ==> parse(groups[i]).Some?
  }

  function Canonical(parse: string -> Option<string>, groups: seq<string>): seq<string>
    requires AllGuids(parse, groups)
  {
    seq(|groups|, i requires 0 <= i < |groups| => parse(groups[i]).value)
  }

  /** The canonical identifiers that the strings spell, None when one of them is not a GUID. */
  method GroupUuids(parse: string -> Option<string>, groups: seq<string>) returns (r: Option<seq<string>>)
    ensures r == if AllGuids(parse, groups) then Some(Canonical(parse, groups)) else None
    ensures if SomeInvalid(parse, groups) then r.None? else r.Some? && Spells(parse, groups, r.value)
  {
    var out := [];
    for i := 0 to |groups|
      invariant |out| == i && forall j :: 0 <= j < i ==> parse(groups[j]) == Some(out[j])
    {
      var g := parse(groups[i]);
      if g.None? {
        return None;
      }
      out := out + [g.value];
    }
    assert out == Canonical(parse, groups);
    r := Some(out);
  }

  /** One of the strings is no GUID. */
  ghost predicate SomeInvalid(parse: string -> Option<string>, groups: seq<string>) {
    exists i :: 0 <= i < |groups| && parse(groups[i]).None?
  }

  /** Two of the strings spell one GUID. */
  ghost predicate GroupTwice(parse: string -> Option<string>, groups: seq<string>) {
    exists i, j :: 0 <= i < j < |groups| && parse(groups[i]) == parse(groups[j])
  }

  ghost predicate Spells(parse: string -> Option<string>, groups: seq<string>, uuids: seq<string>) {
    |uuids| == |groups| && forall i :: 0 <= i < |groups| ==> parse(groups[i]) == Some(uuids[i])
  }

  /** The name, stripped, is that of a row, other than row `except`. */
  ghost predicate NameUsed(rows: seq<Template>, except: int, name: string) {
    exists i :: 0 <= i < |rows| && i != except && Trims(name, rows[i].name)
  }

  ghost predicate IsSchema(schema: Params) {
    forall k :: Lookup(schema, k) == SchemaValue(k)
  }

  /** The parameters given, over the schema's defaults. */
  ghost predicate OverSchema(given: Params, params: Params) {
    forall k :: Lookup(params, k) == if k in given then Some(given[k]) else SchemaValue(k)
  }

  lemma OverSchemaIs(schema: Params, given: Params)
    requires IsSchema(schema)
    ensures OverSchema(given, schema + given)
  {
    forall k
      ensures Lookup(schema + given, k) == if k in given then Some(given[k]) else SchemaValue(k)
    {
      assert Lookup(schema, k) == SchemaValue(k);
    }
  }

  /** `after` are the rows, none of them the default one any more if `demote` is set. */
  ghost predicate IsDemoted(demote: bool, before: seq<Template>, after: seq<Template>) {
    && |after| == |before|
    && forall i :: 0 <= i < |before| ==> after[i] == if demote then before[i].(isDefault := false) else before[i]
  }

  lemma GroupsAre(parse: string -> Option<string>, groups: seq<string>)
    ensures SomeInvalid(parse, groups) <==> !AllGuids(parse, groups)
    ensures AllGuids(parse, groups) ==> Spells(parse, groups, Canonical(parse, groups))
    ensures AllGuids(parse, groups) ==> (GroupTwice(parse, groups) <==> !NoDuplicates(Canonical(parse, groups)))
  {
    if AllGuids(parse, groups) {
      var c := Canonical(parse, groups);
      forall i, j | 0 <= i < j < |groups|
        ensures parse(groups[i]) == parse(groups[j]) <==> c[i] == c[j]
      {
        assert parse(groups[i]).Some? && parse(groups[j]).Some?;
      }
    }
  }

  lemma NamesAre(rows: seq<Template>, except: int, name: string)
    ensures NameUsed(rows, except, name) <==> exists i :: 0 <= i < |rows| && i != except && rows[i].name == Strip(name)
  {
    forall i | 0 <= i < |rows|
      ensures Trims(name, rows[i].name) <==> rows[i].name == Strip(name)
    {
      if Trims(name, rows[i].name) {
        TrimsOneWay(name, rows[i].name, Strip(name));
      }
    }
  }

  ghost predicate ValidRows(rows: seq<Template>) {
    AtMostOneDefault(rows) && UniqueNames(rows) && UniqueIds(rows)
  }

  predicate NameOfAnother(rows: seq<Template>, i: nat, name: string) {
    exists j :: 0 <= j < |rows| && j != i && rows[j].name == name
  }

  lemma DefaultKept(rows: seq<Template>, after: seq<Template>, i: int)
    requires 0 <= i < |rows| && rows[i].isDefault && i < |after| && after[i] == rows[i]
    ensures HasDefault(after)
  {
  }

  lemma AppendKeepsNames(rows: seq<Template>, draft: seq<Template>, t: Template)
    requires UniqueNames(rows) && UniqueIds(rows) && |draft| == |rows|
    requires forall i :: 0 <= i < |rows| ==> draft[i].name == rows[i].name && draft[i].id == rows[i].id
    requires !NameTaken(rows, t.name) && forall i :: 0 <= i < |rows| ==> rows[i].id != t.id
    ensures UniqueNames(draft + [t]) && UniqueIds(draft + [t])
  {
  }

  lemma AppendKeeps(rows: seq<Template>, t: Template)
    requires ValidRows(rows) && !NameTaken(rows, t.name) && forall i :: 0 <= i < |rows| ==> rows[i].id != t.id
    ensures ValidRows(DemotedIf(t.isDefault, rows) + [t])
    ensures HasDefault(DemotedIf(t.isDefault, rows) + [t]) <==> HasDefault(rows) || t.isDefault
  {
    var draft := DemotedIf(t.isDefault, rows);
    var after := draft + [t];
    AppendKeepsNames(rows, draft, t);
    assert after[|rows|] == t;
    if HasDefault(rows) && !t.isDefault {
      var i :| 0 <= i < |rows| && rows[i].isDefault;
      DefaultKept(rows, after, i);
    }
  }

  lemma ReplaceKeepsNames(rows: seq<Template>, draft: seq<Template>, i: nat, t: Template)
    requires UniqueNames(rows) && UniqueIds(rows) && |draft| == |rows| && i < |rows|
    requires forall j :: 0 <= j < |rows| ==> draft[j].name == rows[j].name && draft[j].id == rows[j].id
    requires !NameOfAnother(rows, i, t.name) && t.id == rows[i].id
    ensures UniqueNames(draft[i := t]) && UniqueIds(draft[i := t])
  {
    var after := draft[i := t];
    assert forall j :: 0 <= j < |rows| && j != i ==> after[j].name == rows[j].name != t.name;
    assert forall j :: 0 <= j < |rows| ==> after[j].id == rows[j].id;
  }

  lemma ReplaceKeeps(rows: seq<Template>, i: nat, isDefault: Option<bool>, t: Template)
    requires ValidRows(rows) && i < |rows| && !NameOfAnother(rows, i, t.name) && t.id == rows[i].id
    requires t.isDefault == isDefault.GetOr(rows[i].isDefault)
    ensures var after := DemotedIf(isDefault == Some(true), rows)[i := t];
      ValidRows(after) && (HasDefault(rows) && isDefault != Some(false) ==> HasDefault(after))
  {
    var draft := DemotedIf(isDefault == Some(true), rows);
    var after := draft[i := t];
    ReplaceKeepsNames(rows, draft, i, t);
    assert after[i] == t;
    if HasDefault(rows) && isDefault != Some(false) && !t.isDefault {
      var j :| 0 <= j < |rows| && rows[j].isDefault;
      DefaultKept(rows, after, j);
    }
  }

  /** The index in `rows` of what stands at `j` once row `i` is gone. */
  function Before(i: nat, j: nat): nat {
    if j < i then j else j + 1
  }

  ghost predicate Removed(rows: seq<Template>, i: nat, after: seq<Template>) {
    && i < |rows| && |after| == |rows| - 1
    && forall j :: 0 <= j < |after| ==> after[j] == rows[Before(i, j)]
  }

  lemma RemoveKeepsOneDefault(rows: seq<Template>, i: nat, after: seq<Template>)
    requires Removed(rows, i, after) && AtMostOneDefault(rows)
    ensures AtMostOneDefault(after)
  {
    forall j, k | 0 <= j < k < |after|
      ensures !(after[j].isDefault && after[k].isDefault)
    {
      assert after[j] == rows[Before(i, j)] && after[k] == rows[Before(i, k)];
    }
  }

  lemma RemoveKeepsNames(rows: seq<Template>, i: nat, after: seq<Template>)
    requires Removed(rows, i, after) && UniqueNames(rows)
    ensures UniqueNames(after)
  {
    forall j, k | 0 <= j < k < |after|
      ensures after[j].name != after[k].name
    {
      assert after[j] == rows[Before(i, j)] && after[k] == rows[Before(i, k)];
    }
  }

  lemma RemoveKeepsIds(rows: seq<Template>, i: nat, after: seq<Template>)
    requires Removed(rows, i, after) && UniqueIds(rows)
    ensures UniqueIds(after)
  {
    forall j, k | 0 <= j < k < |after|
      ensures after[j].id != after[k].id
    {
      assert after[j] == rows[Before(i, j)] && after[k] == rows[Before(i, k)];
    }
  }

  lemma WithoutRow(rows: seq<Template>, i: nat)
    requires i < |rows|
    ensures Removed(rows, i, rows[..i] + rows[i + 1..])
  {
  }

  lemma RemovedIsValid(rows: seq<Template>, i: nat, after: seq<Template>)
    requires ValidRows(rows) && Removed(rows, i, after)
    ensures ValidRows(after)
  {
    RemoveKeepsOneDefault(rows, i, after);
    RemoveKeepsNames(rows, i, after);
    RemoveKeepsIds(rows, i, after);
  }

  lemma RemoveKeeps(rows: seq<Template>, i: nat)
    requires ValidRows(rows) && i < |rows| && !rows[i].isDefault
    ensures ValidRows(rows[..i] + rows[i + 1..])
    ensures FirstDefault(rows[..i] + rows[i + 1..]) == FirstDefault(rows)
  {
    WithoutRow(rows, i);
    RemovedIsValid(rows, i, rows[..i] + rows[i + 1..]);
    DefaultWithout(rows, i);
  }

  lemma {:induction false} DefaultWithout(rows: seq<Template>, i: nat)
    requires i < |rows| && !rows[i].isDefault
    ensures FirstDefault(rows[..i] + rows[i + 1..]) == FirstDefault(rows)
  {
    var after := rows[..i] + rows[i + 1..];
    if i == 0 {
      assert after == rows[1..];
    } else {
      DefaultWithout(rows[1..], i - 1);
      assert after[1..] == rows[1..][..i - 1] + rows[1..][i..];
    }
  }

  /** The groups of a row after a change; None when one is not a GUID. */
  method ChangedGroups(parse: string -> Option<string>, before: seq<string>, groups: Option<seq<string>>)
    returns (r: Option<seq<string>>)
    ensures r == if groups.None? then Some(before)
                 else if AllGuids(parse, groups.value) then Some(Canonical(parse, groups.value)) else None
  {
    if groups.None? {
      return Some(before);
    }
    r := GroupUuids(parse, groups.value);
  }

  /** The fields of a request written to its row; None when a group is not a GUID. */
  method ChangedRow(parse: string -> Option<string>, schema: Params, row: Template, body: Change)
    returns (r: Option<Template>)
    requires IsSchema(schema)
    ensures r.Some? <==> (body.groups.Some? ==> AllGuids(parse, body.groups.value))
    ensures r.Some? ==> Updated(parse, row, body, r.value)
    ensures r.Some? && body.name.Some? ==> r.value.name == Strip(body.name.value)
  {
    if body.params.Some? {
      OverSchemaIs(schema, body.params.value);
    }
    if body.groups.Some? {
      GroupsAre(parse, body.groups.value);
    }
    var groups := ChangedGroups(parse, row.groups, body.groups);
    if groups.None? {
      return None;
    }
    r := Some(Template(
      row.id,
      if body.name.Some? then Strip(body.name.value) else row.name,
      body.isDefault.GetOr(row.isDefault),
      if body.priority.Some? then body.priority.value else row.priority,
      if body.params.Some? then schema + body.params.value else row.params,
      groups.value));
  }

  ghost predicate IsAt(rows: seq<Template>, i: int, id: int) {
    0 <= i < |rows| && rows[i].id == id
  }

  lemma OnlyOneAt(rows: seq<Template>, i: int, id: int)
    requires ValidRows(rows) && IsAt(rows, i, id)
    ensures forall j :: IsAt(rows, j, id) <==> j == i
  {
  }

  /** Row `i` is `t` as updated, and no other row changes but that a new default demotes it. */
  ghost predicate RowsUpdated(parse: string -> Option<string>, before: seq<Template>, i: int, body: Change,
                              t: Template, after: seq<Template>)
    requires 0 <= i < |before|
  {
    && |after| == |before| && after[i] == t && Updated(parse, before[i], body, t)
    && IsDemoted(body.isDefault == Some(true), before[..i], after[..i])
    && IsDemoted(body.isDefault == Some(true), before[i + 1..], after[i + 1..])
  }

  lemma ClashesIs(parse: string -> Option<string>, rows: seq<Template>, i: nat, body: Change, t: Template)
    requires ValidRows(rows) && i < |rows| && (body.groups.Some? ==> !SomeInvalid(parse, body.groups.value))
    requires t.name == if body.name.Some? then Strip(body.name.value) else rows[i].name
    requires body.groups.Some? ==> Spells(parse, body.groups.value, t.groups)
    ensures Clashes(parse, rows, i, body)
      <==> NameOfAnother(rows, i, t.name) || (body.groups.Some? && !NoDuplicates(t.groups))
  {
    if body.name.Some? {
      NamesAre(rows, i, body.name.value);
    }
    if body.groups.Some? {
      GroupsAre(parse, body.groups.value);
      assert t.groups == Canonical(parse, body.groups.value);
    }
  }

  lemma CreateConflicts(parse: string -> Option<string>, rows: seq<Template>, body: NewTemplate, t: Template)
    requires t.name == Strip(body.name) && Spells(parse, body.groups, t.groups)
    ensures NameTaken(DemotedIf(body.isDefault, rows), t.name) <==> NameUsed(rows, -1, body.name)
    ensures NameTaken(rows, t.name) <==> NameUsed(rows, -1, body.name)
    ensures NoDuplicates(t.groups) <==> !GroupTwice(parse, body.groups)
  {
    NamesAre(rows, -1, body.name);
    SameNames(rows, body.isDefault, t.name);
    TwiceIs(parse, body.groups, t.groups);
  }

  lemma SameNames(rows: seq<Template>, demote: bool, name: string)
    ensures NameTaken(DemotedIf(demote, rows), name) <==> NameTaken(rows, name)
  {
    var draft := DemotedIf(demote, rows);
    assert forall i :: 0 <= i < |rows| ==> draft[i].name == rows[i].name;
  }

  lemma TwiceIs(parse: string -> Option<string>, groups: seq<string>, uuids: seq<string>)
    requires Spells(parse, groups, uuids)
    ensures NoDuplicates(uuids) <==> !GroupTwice(parse, groups)
  {
    assert forall i, j :: 0 <= i < j < |groups| ==> (parse(groups[i]) == parse(groups[j]) <==> uuids[i] == uuids[j]);
  }

  lemma AppendShape(rows: seq<Template>, demote: bool, t: Template)
    ensures var after := DemotedIf(demote, rows) + [t];
      |after| == |rows| + 1 && after[|rows|] == t && IsDemoted(demote, rows, after[..|rows|])
  {
    var draft := DemotedIf(demote, rows);
    assert (draft + [t])[..|rows|] == draft;
  }

  lemma ReplaceShape(rows: seq<Template>, demote: bool, i: nat, t: Template)
    requires i < |rows|
    ensures var draft := DemotedIf(demote, rows); var after := draft[i := t];
      && |draft| == |after| == |rows| && after[i] == t
      && IsDemoted(demote, rows[..i], after[..i]) && IsDemoted(demote, rows[i + 1..], after[i + 1..])
      && (NameOfAnother(draft, i, t.name) <==> NameOfAnother(rows, i, t.name))
  {
    var draft := DemotedIf(demote, rows);
    var after := draft[i := t];
    assert forall j :: 0 <= j < |rows| ==> draft[j].name == rows[j].name;
    assert after[..i] == draft[..i] && after[i + 1..] == draft[i + 1..];
  }

  class TemplateTable {
    var rows: seq<Template>
    /** How a string is read as a GUID. */
    const parse: string -> Option<string>
    /** The parameter schema's defaults. */
    const schema: Params

    ghost predicate Valid()
      reads this
    {
      ValidRows(rows) && IsSchema(schema)
    }

    constructor (parse: string -> Option<string>)
      ensures Valid() && rows == [] && this.parse == parse
    {
      this.parse := parse;
      schema := DefaultRdpParams();
      forall k
        ensures Lookup(DefaultRdpParams(), k) == SchemaValue(k)
      {
        DefaultsAreSchema(k);
      }
      rows := [];
    }

    /** The change is made on a draft; an error leaves the rows as they were. */
    /** The row of a create request; None when a group is not a GUID. */
    method NewRow(body: NewTemplate, freshId: int) returns (r: Option<Template>)
      requires IsSchema(schema)
      ensures r.None? <==> SomeInvalid(parse, body.groups)
      ensures r.Some? ==> var t := r.value;
        && t.id == freshId && t.name == Strip(body.name) && t.isDefault == body.isDefault
        && t.priority == body.priority && OverSchema(body.params, t.params) && Spells(parse, body.groups, t.groups)
    {
      var params := schema + body.params;
      OverSchemaIs(schema, body.params);
      var groups := GroupUuids(parse, body.groups);
      if groups.None? {
        return None;
      }
      r := Some(Template(freshId, Strip(body.name), body.isDefault, body.priority, params, groups.value));
    }

    method CreateTemplate(body: NewTemplate, freshId: int) returns (r: Outcome)
      requires Valid() && forall i :: 0 <= i < |rows| ==> rows[i].id != freshId
      modifies `rows
      ensures Valid()
      ensures r.Ok? || r.BadRequest? || r.Conflict?
      ensures r.BadRequest? <==> SomeInvalid(parse, body.groups)
      ensures r.Conflict? <==> (
        && !SomeInvalid(parse, body.groups)
        && (NameUsed(old(rows), -1, body.name) || GroupTwice(parse, body.groups)))
      ensures !r.Ok? ==> rows == old(rows)
      ensures r.Ok? ==> var t := r.template;
        && t.id == freshId && Trims(body.name, t.name) && t.isDefault == body.isDefault && t.priority == body.priority
        && OverSchema(body.params, t.params) && Spells(parse, body.groups, t.groups)
      ensures r.Ok? ==>
        |rows| == |old(rows)| + 1 && rows[|old(rows)|] == r.template
        && IsDemoted(body.isDefault, old(rows), rows[..|old(rows)|])
      ensures HasDefault(rows) <==> HasDefault(old(rows)) || (r.Ok? && body.isDefault)
    {
      var draft := DemotedIf(body.isDefault, rows);
      var row := NewRow(body, freshId);
      if row.None? {
        return BadRequest;
      }
      var t := row.value;
      CreateConflicts(parse, rows, body, t);
      if NameTaken(draft, t.name) || !NoDuplicates(t.groups) {
        return Conflict;
      }
      AppendKeeps(rows, t);
      AppendShape(rows, body.isDefault, t);
      rows := draft + [t];
      r := Ok(t);
    }

    method UpdateTemplate(templateId: Option<int>, body: Change) returns (r: Outcome)
      requires Valid()
      modifies `rows
      ensures Valid()
      ensures r.BadRequest? || r.NotFound? || r.Conflict? || r.Ok?
      ensures !r.Ok? ==> rows == old(rows)
      ensures templateId.None? ==> r.BadRequest?
      ensures r.NotFound? <==> templateId.Some? && forall i :: !IsAt(old(rows), i, templateId.value)
      ensures templateId.Some? ==> forall i :: IsAt(old(rows), i, templateId.value) ==>
        && (r.BadRequest? <==> body.groups.Some? && SomeInvalid(parse, body.groups.value))
        && (r.Conflict? <==> !r.BadRequest? && Clashes(parse, old(rows), i, body))
        && (r.Ok? ==> RowsUpdated(parse, old(rows), i, body, r.template, rows))
      ensures HasDefault(old(rows)) && body.isDefault != Some(false) ==> HasDefault(rows)
    {
      if templateId.None? {
        return BadRequest;
      }
      var found := IndexOf(rows, templateId.value);
      if found.None? {
        return NotFound;
      }
      assert IsAt(rows, found.value, templateId.value);
      OnlyOneAt(rows, found.value, templateId.value);
      r := UpdateAt(found.value, body);
    }

    /** The part after the row has been found. */
    method UpdateAt(i: nat, body: Change) returns (r: Outcome)
      requires Valid() && i < |rows|
      modifies `rows
      ensures Valid()
      ensures r.BadRequest? || r.Conflict? || r.Ok?
      ensures !r.Ok? ==> rows == old(rows)
      ensures r.BadRequest? <==> body.groups.Some? && SomeInvalid(parse, body.groups.value)
      ensures r.Conflict? <==> !r.BadRequest? && Clashes(parse, old(rows), i, body)
      ensures r.Ok? ==> RowsUpdated(parse, old(rows), i, body, r.template, rows)
      ensures HasDefault(old(rows)) && body.isDefault != Some(false) ==> HasDefault(rows)
    {
      var draft := DemotedIf(body.isDefault == Some(true), rows);
      var changed := ChangedRow(parse, schema, rows[i], body);
      if body.groups.Some? {
        GroupsAre(parse, body.groups.value);
      }
      if changed.None? {
        return BadRequest;
      }
      var t := changed.value;
      ClashesIs(parse, rows, i, body, t);
      ReplaceShape(rows, body.isDefault == Some(true), i, t);
      if NameOfAnother(draft, i, t.name) || (body.groups.Some? && !NoDuplicates(t.groups)) {
        return Conflict;
      }
      ReplaceKeeps(rows, i, body.isDefault, t);
      rows := draft[i := t];
      r := Ok(t);
    }

    method DeleteTemplate(templateId: Option<int>) returns (r: Outcome)
      requires Valid()
      modifies `rows
      ensures Valid()
      ensures r.BadRequest? || r.NotFound? || r.Deleted?
      ensures !r.Deleted? ==> rows == old(rows)
      ensures templateId.None? ==> r.BadRequest?
      ensures r.NotFound? <==> templateId.Some? && forall i :: !IsAt(old(rows), i, templateId.value)
      ensures templateId.Some? ==> forall i :: IsAt(old(rows), i, templateId.value) ==>
        && (r.BadRequest? <==> old(rows)[i].isDefault)
        && (r.Deleted? ==> rows == old(rows)[..i] + old(rows)[i + 1..])
      ensures FirstDefault(rows) == FirstDefault(old(rows))
    {
      if templateId.None? {
        return BadRequest;
      }
      var found := IndexOf(rows, templateId.value);
      if found.None? {
        return NotFound;
      }
      assert IsAt(rows, found.value, templateId.value);
      OnlyOneAt(rows, found.value, templateId.value);
      r := DeleteAt(found.value);
    }

    /** The part after the row has been found. */
    method DeleteAt(i: nat) returns (r: Outcome)
      requires Valid() && i < |rows|
      modifies `rows
      ensures Valid()
      ensures r == if old(rows)[i].isDefault then BadRequest else Deleted
      ensures rows == if old(rows)[i].isDefault then old(rows) else old(rows)[..i] + old(rows)[i + 1..]
      ensures FirstDefault(rows) == FirstDefault(old(rows))
    {
      if rows[i].isDefault {
        return BadRequest;
      }
      RemoveKeeps(rows, i);
      rows := rows[..i] + rows[i + 1..];
      r := Deleted;
    }
  }

  /** The change gives row `i` the name of another row, or names one group twice. */
  ghost predicate Clashes(parse: string -> Option<string>, rows: seq<Template>, i: nat, body: Change) {
    || (body.name.Some? && NameUsed(rows, i, body.name.value))
    || (body.groups.Some? && GroupTwice(parse, body.groups.value))
  }

  /** What an update makes of a row. */
  ghost predicate Updated(parse: string -> Option<string>, before: Template, body: Change, after: Template) {
    && after.id == before.id
    && after.isDefault == (if body.isDefault.Some? then body.isDefault.value else before.isDefault)
    && (if body.name.Some? then Trims(body.name.value, after.name) else after.name == before.name)
    && after.priority == (if body.priority.Some? then body.priority.value else before.priority)
    && (if body.params.Some? then OverSchema(body.params.value, after.params) else after.params == before.params)
    && (if body.groups.Some? then Spells(parse, body.groups.value, after.groups) else after.groups == before.groups)
  }
}
