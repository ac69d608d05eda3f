/**
 The variables of the NUT server (lib/NUTServer/src/NUTServer.cpp): the lookup behind GET VAR and SET
 VAR, and the listing of LIST VAR, which the source writes independently of each other.
 */
module NutVariables {
  import opened Prelude
  import NutTokens

  /** One entry of UPSData; UPSData::set() keeps the keys distinct. */
  datatype Param = Param(key: string, value: string)

  datatype Override = Override(key: string, value: string)

  /** A line of the listing. */
  datatype Entry = Entry(name: string, value: string)

  function LowerChar(c: char): (r: char) {
    if 'A' <= c <= 'Z' then (c as int + 32) as char else c
  }

  function Lower(s: string): (r: string)
    ensures |r| == |s| && forall i :: 0 <= i < |s| ==> r[i] == LowerChar(s[i])
  {
    seq(|s|, i requires 0 <= i < |s| => LowerChar(s[i]))
  }

  const UPS_STATUS := "ups.status"
  const DEVICE_TYPE := "device.type"
  const INTERNAL_PREFIX := "ups.status."
  const PARAMETER_PREFIX := "driver.parameter."
  const OVERRIDE_PARAM_PREFIX := "driver.parameter.override."

  /** The names of DEVICE_ALIASES, in order. */
  const ALIAS_COUNT: nat := 3

  function AliasName(n: nat): (r: string)
    requires n < ALIAS_COUNT
  {
    if n == 0 then "device.mfr" else if n == 1 then "device.model" else "device.serial"
  }

  predicate IsAlias(x: string) {
    x == AliasName(0) || x == AliasName(1) || x == AliasName(2)
  }

  /** deviceAliasSource() */
  function AliasSource(x: string): (r: string)
    requires IsAlias(x)
  {
    if x == AliasName(0) then "ups.mfr" else if x == AliasName(1) then "ups.model" else "ups.serial"
  }

  predicate Internal(key: string) {
    INTERNAL_PREFIX <= key
  }

  /** NutOverrides::isProtectedKey() */
  predicate Protected(key: string) {
    var k := Lower(key);
    k == UPS_STATUS || INTERNAL_PREFIX <= k || k == DEVICE_TYPE || PARAMETER_PREFIX <= k
  }

  function Find(list: seq<Override>, name: string): (r: Option<Override>)
    ensures r.Some? ==> r.value in list && Lower(r.value.key) == Lower(name)
    ensures r.None? ==> forall o <- list :: Lower(o.key) != Lower(name)
  {
    if list == [] then None
    else if Lower(list[0].key) == Lower(name) then Some(list[0])
    else Find(list[1..], name)
  }

  function Get(data: seq<Param>, key: string): (r: Option<string>)
    ensures r.Some? <==> exists p :: p in data && p.key == key
    ensures r.Some? ==> Param(key, r.value) in data
  {
    if data == [] then None else if data[0].key == key then Some(data[0].value) else Get(data[1..], key)
  }

  /** resolveVar() of a name in lower case; status is getUPSStatusString(). */
  function Resolve(data: seq<Param>, list: seq<Override>, status: string, x: string): (r: Option<string>) {
    if Internal(x) then None
    else if x == UPS_STATUS then Some(status)
    else if x == DEVICE_TYPE then Some("ups")
    else if OVERRIDE_PARAM_PREFIX <= x then
      match Find(list, x[|OVERRIDE_PARAM_PREFIX|..])
      case Some(o) => Some(o.value)
      case None => None
    else match Find(list, x)
      case Some(o) => Some(o.value)
      case None =>
        if !IsAlias(x) then Get(data, x)
        else match Find(list, AliasSource(x))
          case Some(o) => Some(o.value)
          case None => Get(data, AliasSource(x))
  }

  // ----- LIST VAR, loop by loop -----

  function AliasLine(data: seq<Param>, list: seq<Override>, status: string, x: string): (r: seq<Entry>) {
    match Resolve(data, list, status, x)
    case Some(v) => [Entry(x, v)]
    case None => []
  }

  function AliasLines(data: seq<Param>, list: seq<Override>, status: string, n: nat): (r: seq<Entry>)
    requires n <= ALIAS_COUNT
  {
    if n == 0 then []
    else AliasLines(data, list, status, n - 1) + AliasLine(data, list, status, AliasName(n - 1))
  }

  /** The UPS data; an override replaces the value, under the name it was saved with. */
  function ReportedLine(p: Param, list: seq<Override>): (r: seq<Entry>) {
    if Internal(p.key) then []
    else match Find(list, p.key)
      case Some(o) => [Entry(o.key, o.value)]
      case None => [Entry(p.key, p.value)]
  }

  function Reported(data: seq<Param>, list: seq<Override>): (r: seq<Entry>) {
    if data == [] then [] else ReportedLine(data[0], list) + Reported(data[1..], list)
  }

  /** The overrides the UPS does not report. */
  function AddedLine(data: seq<Param>, o: Override): (r: seq<Entry>) {
    if Get(data, Lower(o.key)).Some? || IsAlias(Lower(o.key)) then [] else [Entry(o.key, o.value)]
  }

  function Added(data: seq<Param>, list: seq<Override>): (r: seq<Entry>) {
    if list == [] then [] else AddedLine(data, list[0]) + Added(data, list[1..])
  }

  function Parameters(list: seq<Override>): (r: seq<Entry>) {
    if list == [] then []
    else [Entry(OVERRIDE_PARAM_PREFIX + list[0].key, list[0].value)] + Parameters(list[1..])
  }

  function Listing(data: seq<Param>, list: seq<Override>, status: string): (r: seq<Entry>) {
    [Entry(UPS_STATUS, status), Entry(DEVICE_TYPE, "ups")]
    + (AliasLines(data, list, status, 3) + (Reported(data, list) + (Added(data, list) + Parameters(list))))
  }

  method ListAliases(data: seq<Param>, list: seq<Override>, status: string) returns (lines: seq<Entry>)
    ensures lines == AliasLines(data, list, status, ALIAS_COUNT)
  {
    lines := [];
    for i := 0 to ALIAS_COUNT
      invariant lines == AliasLines(data, list, status, i)
    {
      var value := Resolve(data, list, status, AliasName(i));
      if value.Some? {
        lines := lines + [Entry(AliasName(i), value.value)];
      }
    }
  }

  lemma EntryNext(lines: seq<Entry>, line: Entry, rest: seq<Entry>)
    ensures (lines + [line]) + rest == lines + ([line] + rest)
    ensures lines + ([] + rest) == lines + rest
  {
  }

  method ListReported(data: seq<Param>, list: seq<Override>) returns (lines: seq<Entry>)
    ensures lines == Reported(data, list)
  {
    lines := [];
    for i := 0 to |data|
      invariant lines + Reported(data[i..], list) == Reported(data, list)
    {
      assert data[i..][1..] == data[i + 1..];
      if !Internal(data[i].key) {
        var o := Find(list, data[i].key);
        var line := if o.Some? then Entry(o.value.key, o.value.value) else Entry(data[i].key, data[i].value);
        EntryNext(lines, line, Reported(data[i + 1..], list));
        lines := lines + [line];
      }
    }
  }

  method ListAdded(data: seq<Param>, list: seq<Override>) returns (lines: seq<Entry>)
    ensures lines == Added(data, list)
  {
    lines := [];
    for i := 0 to |list|
      invariant lines + Added(data, list[i..]) == Added(data, list)
    {
      assert list[i..][1..] == list[i + 1..];
      var keyLower := Lower(list[i].key);
      EntryNext(lines, Entry(list[i].key, list[i].value), Added(data, list[i + 1..]));
      if Get(data, keyLower).None? && !IsAlias(keyLower) {
        lines := lines + [Entry(list[i].key, list[i].value)];
      }
    }
  }

  method ListParameters(list: seq<Override>) returns (lines: seq<Entry>)
    ensures lines == Parameters(list)
  {
    lines := [];
    for i := 0 to |list|
      invariant lines + Parameters(list[i..]) == Parameters(list)
    {
      assert list[i..][1..] == list[i + 1..];
      lines := lines + [Entry(OVERRIDE_PARAM_PREFIX + list[i].key, list[i].value)];
    }
  }

  /** The body of LIST VAR between its BEGIN and END lines. */
  method ListVar(data: seq<Param>, list: seq<Override>, status: string) returns (lines: seq<Entry>)
    ensures lines == Listing(data, list, status)
  {
    lines := [Entry(UPS_STATUS, status), Entry(DEVICE_TYPE, "ups")];
    var aliases := ListAliases(data, list, status);
    var reported := ListReported(data, list);
    var added := ListAdded(data, list);
    var parameters := ListParameters(list);
    lines := lines + (aliases + (reported + (added + parameters)));
  }

  // ----- What makes the two agree -----

  /** UPSData as set() leaves it: no key twice. */
  ghost predicate DistinctKeys(data: seq<Param>) {
    forall i, j :: 0 <= i < j < |data| ==> data[i].key != data[j].key
  }

  /** The rules of NutOverrides::checkList() that matter here. */
  ghost predicate ValidOverrides(list: seq<Override>) {
    && (forall i :: 0 <= i < |list| ==> !Protected(list[i].key))
    && (forall i, j :: 0 <= i < j < |list| ==> Lower(list[i].key) != Lower(list[j].key))
  }

  predicate Reserved(key: string) {
    key == UPS_STATUS || key == DEVICE_TYPE || IsAlias(key) || OVERRIDE_PARAM_PREFIX <= key
  }

  /** Every key the UPS publishes is in lower case and not one the server makes itself. */
  predicate WellKeyed(data: seq<Param>) {
    forall p <- data :: Internal(p.key) || (Lower(p.key) == p.key && !Reserved(p.key))
  }

  /** The listing is the graph of the lookup: no name twice, ignoring case, and the same answers. */
  ghost predicate Agrees(lines: seq<Entry>, data: seq<Param>, list: seq<Override>, status: string) {
    && (forall i, j :: 0 <= i < j < |lines| ==> Lower(lines[i].name) != Lower(lines[j].name))
    && (forall e <- lines :: Resolve(data, list, status, Lower(e.name)) == Some(e.value))
    && (forall x: string :: Lower(x) == x && Resolve(data, list, status, x).Some? ==>
          exists e :: e in lines && Lower(e.name) == x)
  }

  lemma LowerIdempotent(s: string)
    ensures Lower(Lower(s)) == Lower(s)
  {
  }

  lemma LowerConcat(a: string, b: string)
    ensures Lower(a + b) == Lower(a) + Lower(b)
  {
  }

  lemma LowerPrefix(s: string)
    ensures Lower(OVERRIDE_PARAM_PREFIX + s) == OVERRIDE_PARAM_PREFIX + Lower(s)
  {
    LowerConcat(OVERRIDE_PARAM_PREFIX, s);
    assert Lower(OVERRIDE_PARAM_PREFIX) == OVERRIDE_PARAM_PREFIX;
  }

  // ----- Names of each part of the listing -----

  ghost function Names(lines: seq<Entry>): (r: set<string>) {
    set e | e in lines :: Lower(e.name)
  }

  ghost predicate NoName(lines: seq<Entry>, x: string) {
    x !in Names(lines)
  }

  ghost predicate Distinct(lines: seq<Entry>) {
    lines == [] || (NoName(lines[1..], Lower(lines[0].name)) && Distinct(lines[1..]))
  }

  lemma NamesConcat(a: seq<Entry>, b: seq<Entry>)
    ensures Names(a + b) == Names(a) + Names(b)
  {
    forall x ensures x in Names(a + b) <==> x in Names(a) + Names(b) {
      if x in Names(a) {
        var e :| e in a && Lower(e.name) == x;
        assert e in a + b;
      }
      if x in Names(b) {
        var e :| e in b && Lower(e.name) == x;
        assert e in a + b;
      }
    }
  }

  lemma {:induction false} DistinctConcat(a: seq<Entry>, b: seq<Entry>)
    ensures Distinct(a + b) <==> Distinct(a) && Distinct(b) && Names(a) !! Names(b)
    decreases |a|
  {
    if a == [] {
      assert a + b == b;
    } else {
      assert (a + b)[1..] == a[1..] + b;
      DistinctConcat(a[1..], b);
      NamesConcat(a[1..], b);
      NamesConcat([a[0]], a[1..]);
      assert [a[0]] + a[1..] == a;
      assert Names([a[0]]) == {Lower(a[0].name)};
    }
  }

  lemma {:induction false} DistinctByIndex(lines: seq<Entry>)
    ensures Distinct(lines) <==> forall i, j :: 0 <= i < j < |lines| ==> Lower(lines[i].name) != Lower(lines[j].name)
    decreases |lines|
  {
    if lines != [] {
      var tail := lines[1..];
      DistinctByIndex(tail);
      assert forall j :: 0 <= j < |tail| ==> tail[j] == lines[j + 1];
      if NoName(tail, Lower(lines[0].name)) {
        forall j | 0 <= j < |tail| ensures Lower(tail[j].name) != Lower(lines[0].name) {
          assert Lower(tail[j].name) in Names(tail);
        }
        assert Distinct(tail) ==> forall i, j :: 0 <= i < j < |lines| ==> Lower(lines[i].name) != Lower(lines[j].name);
      } else {
        var e :| e in tail && Lower(e.name) == Lower(lines[0].name);
      }
      if forall i, j :: 0 <= i < j < |lines| ==> Lower(lines[i].name) != Lower(lines[j].name) {
        forall i, j | 0 <= i < j < |tail| ensures Lower(tail[i].name) != Lower(tail[j].name) {
          assert Lower(lines[i + 1].name) != Lower(lines[j + 1].name);
        }
      }
    }
  }

  lemma StatusLiterals()
    ensures Lower(UPS_STATUS) == UPS_STATUS && Lower(DEVICE_TYPE) == DEVICE_TYPE && UPS_STATUS != DEVICE_TYPE
    ensures !Internal(UPS_STATUS) && !Internal(DEVICE_TYPE)
  {
    assert |INTERNAL_PREFIX| == 11 && INTERNAL_PREFIX[0] == 'u' && |UPS_STATUS| == 10 && UPS_STATUS[0] == 'u';
    assert DEVICE_TYPE[0] == 'd';
  }

  lemma AliasLiterals(x: string)
    requires IsAlias(x)
    ensures Lower(x) == x && x != UPS_STATUS && x != DEVICE_TYPE && !(OVERRIDE_PARAM_PREFIX <= x) && !Internal(x)
  {
    assert x[0] == 'd' && x[1] == 'e' && x[7] != 't' && DEVICE_TYPE[7] == 't';
    assert UPS_STATUS[0] == 'u' && INTERNAL_PREFIX[0] == 'u' && OVERRIDE_PARAM_PREFIX[1] == 'r';
  }

  lemma ParameterLiterals(x: string)
    requires OVERRIDE_PARAM_PREFIX <= x
    ensures PARAMETER_PREFIX <= x && !Internal(x) && x != UPS_STATUS && x != DEVICE_TYPE
  {
    assert x[0] == 'd' && x[1] == 'r' && DEVICE_TYPE[1] == 'e' && UPS_STATUS[0] == 'u' && INTERNAL_PREFIX[0] == 'u';
    assert OVERRIDE_PARAM_PREFIX[..|PARAMETER_PREFIX|] == PARAMETER_PREFIX;
  }

  lemma InternalLiterals(x: string)
    requires Internal(x)
    ensures x != UPS_STATUS && x != DEVICE_TYPE
  {
    assert |INTERNAL_PREFIX| == 11 && |UPS_STATUS| == 10 && x[0] == INTERNAL_PREFIX[0] == 'u' && DEVICE_TYPE[0] == 'd';
  }

  /** The constants of the server, apart from each other. */
  lemma Literals(x: string)
    ensures Lower(UPS_STATUS) == UPS_STATUS && Lower(DEVICE_TYPE) == DEVICE_TYPE && UPS_STATUS != DEVICE_TYPE
    ensures IsAlias(x) ==>
      Lower(x) == x && x != UPS_STATUS && x != DEVICE_TYPE && !(OVERRIDE_PARAM_PREFIX <= x) && !Internal(x)
    ensures OVERRIDE_PARAM_PREFIX <= x ==>
      PARAMETER_PREFIX <= x && !Internal(x) && x != UPS_STATUS && x != DEVICE_TYPE
    ensures Internal(x) ==> x != UPS_STATUS && x != DEVICE_TYPE
    ensures !Internal(UPS_STATUS) && !Internal(DEVICE_TYPE)
  {
    StatusLiterals();
    if IsAlias(x) {
      AliasLiterals(x);
    }
    if OVERRIDE_PARAM_PREFIX <= x {
      ParameterLiterals(x);
    }
    if Internal(x) {
      InternalLiterals(x);
    }
  }

  lemma AliasesDiffer()
    ensures AliasName(0) != AliasName(1) && AliasName(0) != AliasName(2) && AliasName(1) != AliasName(2)
  {
    assert |AliasName(0)| == 10 && |AliasName(1)| == 12 && |AliasName(2)| == 13;
  }

  ghost predicate Answered(lines: seq<Entry>, data: seq<Param>, list: seq<Override>, status: string) {
    forall e <- lines :: Resolve(data, list, status, Lower(e.name)) == Some(e.value)
  }

  lemma AliasLineNames(data: seq<Param>, list: seq<Override>, status: string, x: string)
    requires Lower(x) == x
    ensures var l := AliasLine(data, list, status, x);
      && Names(l) == (if Resolve(data, list, status, x).Some? then {x} else {})
      && Distinct(l) && Answered(l, data, list, status)
  {
  }

  lemma JoinLines(a: seq<Entry>, b: seq<Entry>, data: seq<Param>, list: seq<Override>, status: string)
    requires Distinct(a) && Distinct(b) && Names(a) !! Names(b)
    requires Answered(a, data, list, status) && Answered(b, data, list, status)
    ensures Distinct(a + b) && Names(a + b) == Names(a) + Names(b) && Answered(a + b, data, list, status)
  {
    DistinctConcat(a, b);
    NamesConcat(a, b);
  }

  ghost predicate NamedBefore(n: nat, x: string)
    requires n <= ALIAS_COUNT
  {
    exists i: nat :: i < n && AliasName(i) == x
  }

  lemma AliasJoin(l: seq<Entry>, data: seq<Param>, list: seq<Override>, status: string, x: string)
    requires Distinct(l) && Answered(l, data, list, status) && x !in Names(l) && Lower(x) == x
    ensures var l' := l + AliasLine(data, list, status, x);
      && Distinct(l') && Answered(l', data, list, status)
      && Names(l') == Names(l) + (if Resolve(data, list, status, x).Some? then {x} else {})
  {
    AliasLineNames(data, list, status, x);
    JoinLines(l, AliasLine(data, list, status, x), data, list, status);
  }

  lemma {:induction false} AliasNames(data: seq<Param>, list: seq<Override>, status: string, n: nat)
    requires n <= ALIAS_COUNT
    ensures var l := AliasLines(data, list, status, n); Distinct(l) && Answered(l, data, list, status)
    ensures forall x :: x in Names(AliasLines(data, list, status, n)) <==>
      NamedBefore(n, x) && Resolve(data, list, status, x).Some?
  {
    if n > 0 {
      var x := AliasName(n - 1);
      AliasNames(data, list, status, n - 1);
      AliasesDiffer();
      Literals(x);
      AliasLineNames(data, list, status, x);
      forall y ensures NamedBefore(n, y) <==> NamedBefore(n - 1, y) || y == x {}
      assert !NamedBefore(n - 1, x);
      AliasJoin(AliasLines(data, list, status, n - 1), data, list, status, x);
    }
  }

  lemma ReportedLineNames(p: Param, list: seq<Override>)
    ensures Names(ReportedLine(p, list)) == if Internal(p.key) then {} else {Lower(p.key)}
  {
  }

  lemma {:induction false} ReportedNames(rest: seq<Param>, list: seq<Override>, x: string)
    ensures x in Names(Reported(rest, list)) <==> exists p :: p in rest && !Internal(p.key) && Lower(p.key) == x
    decreases |rest|
  {
    if rest != [] {
      ReportedNames(rest[1..], list, x);
      ReportedLineNames(rest[0], list);
      NamesConcat(ReportedLine(rest[0], list), Reported(rest[1..], list));
      assert rest == [rest[0]] + rest[1..];
    }
  }

  lemma {:induction false} AddedNames(data: seq<Param>, rest: seq<Override>, x: string)
    ensures x in Names(Added(data, rest)) <==>
      Get(data, x).None? && !IsAlias(x) && exists o :: o in rest && Lower(o.key) == x
    decreases |rest|
  {
    if rest != [] {
      AddedNames(data, rest[1..], x);
      NamesConcat(AddedLine(data, rest[0]), Added(data, rest[1..]));
      assert rest == [rest[0]] + rest[1..];
    }
  }

  lemma {:induction false} ParameterNames(rest: seq<Override>, x: string)
    ensures x in Names(Parameters(rest)) <==> exists o :: o in rest && x == OVERRIDE_PARAM_PREFIX + Lower(o.key)
    decreases |rest|
  {
    if rest != [] {
      ParameterNames(rest[1..], x);
      var first := [Entry(OVERRIDE_PARAM_PREFIX + rest[0].key, rest[0].value)];
      NamesConcat(first, Parameters(rest[1..]));
      LowerPrefix(rest[0].key);
      assert Names(first) == {OVERRIDE_PARAM_PREFIX + Lower(rest[0].key)};
    }
  }

  // ----- Sufficient -----

  lemma FindUnique(list: seq<Override>, o: Override, name: string)
    requires ValidOverrides(list) && o in list && Lower(o.key) == Lower(name)
    ensures Find(list, name) == Some(o)
  {
    var r := Find(list, name).value;
    var i :| 0 <= i < |list| && list[i] == o;
    var j :| 0 <= j < |list| && list[j] == r;
    assert i < j ==> Lower(list[i].key) != Lower(list[j].key);
    assert j < i ==> Lower(list[j].key) != Lower(list[i].key);
  }

  lemma GetUnique(data: seq<Param>, p: Param)
    requires DistinctKeys(data) && p in data
    ensures Get(data, p.key) == Some(p.value)
  {
    var q := Param(p.key, Get(data, p.key).value);
    var i :| 0 <= i < |data| && data[i] == p;
    var j :| 0 <= j < |data| && data[j] == q;
    assert i < j ==> data[i].key != data[j].key;
    assert j < i ==> data[j].key != data[i].key;
  }

  /** An override of a name that is not protected is what the lookup answers. */
  lemma OverrideAnswers(data: seq<Param>, list: seq<Override>, status: string, o: Override)
    requires ValidOverrides(list) && o in list
    ensures Resolve(data, list, status, Lower(o.key)) == Some(o.value)
    ensures Resolve(data, list, status, OVERRIDE_PARAM_PREFIX + Lower(o.key)) == Some(o.value)
    ensures !Reserved(Lower(o.key)) || IsAlias(Lower(o.key))
    ensures !Internal(Lower(o.key))
  {
    var i :| 0 <= i < |list| && list[i] == o;
    assert !Protected(list[i].key);
    var x := Lower(o.key);
    Literals(x);
    LowerIdempotent(o.key);
    FindUnique(list, o, x);
    var y := OVERRIDE_PARAM_PREFIX + x;
    Literals(y);
    assert y[|OVERRIDE_PARAM_PREFIX|..] == x;
  }

  /** A key of the UPS in its own name, when no override takes its place. */
  lemma DataAnswers(data: seq<Param>, list: seq<Override>, status: string, p: Param)
    requires DistinctKeys(data) && p in data && !Internal(p.key)
    requires Lower(p.key) == p.key && !Reserved(p.key) && Find(list, p.key).None?
    ensures Resolve(data, list, status, p.key) == Some(p.value)
  {
    GetUnique(data, p);
  }

  lemma ReportedLineAnswers(data: seq<Param>, list: seq<Override>, status: string, p: Param)
    requires DistinctKeys(data) && ValidOverrides(list) && WellKeyed(data) && p in data
    ensures Answered(ReportedLine(p, list), data, list, status)
  {
    if !Internal(p.key) {
      if Find(list, p.key).Some? {
        OverrideAnswers(data, list, status, Find(list, p.key).value);
      } else {
        DataAnswers(data, list, status, p);
      }
    }
  }

  lemma {:induction false} ReportedOk(data: seq<Param>, list: seq<Override>, status: string, rest: seq<Param>)
    requires DistinctKeys(data) && DistinctKeys(rest) && ValidOverrides(list) && WellKeyed(data)
    requires forall p <- rest :: p in data
    ensures Distinct(Reported(rest, list)) && Answered(Reported(rest, list), data, list, status)
    decreases |rest|
  {
    if rest != [] {
      var p, tail := rest[0], rest[1..];
      assert forall i :: 0 <= i < |tail| ==> tail[i] == rest[i + 1];
      ReportedOk(data, list, status, tail);
      ReportedLineNames(p, list);
      ReportedNames(tail, list, Lower(p.key));
      assert p in data;
      assert Names(ReportedLine(p, list)) !! Names(Reported(tail, list)) by {
        forall q | q in tail && !Internal(q.key) && !Internal(p.key) ensures Lower(q.key) != Lower(p.key) {
          assert q in data;
        }
      }
      ReportedLineAnswers(data, list, status, p);
      JoinLines(ReportedLine(p, list), Reported(tail, list), data, list, status);
    }
  }

  lemma TailUnique(rest: seq<Override>)
    requires ValidOverrides(rest) && rest != []
    ensures ValidOverrides(rest[1..])
    ensures forall o <- rest[1..] :: o in rest && Lower(o.key) != Lower(rest[0].key)
  {
    var tail := rest[1..];
    assert forall i :: 0 <= i < |tail| ==> tail[i] == rest[i + 1];
  }

  lemma AddedLineOk(data: seq<Param>, list: seq<Override>, status: string, o: Override)
    requires ValidOverrides(list) && o in list
    ensures var line := AddedLine(data, o);
      && Distinct(line) && Answered(line, data, list, status)
      && forall x <- Names(line) :: x == Lower(o.key)
  {
    OverrideAnswers(data, list, status, o);
  }

  lemma {:induction false} AddedOk(data: seq<Param>, list: seq<Override>, status: string, rest: seq<Override>)
    requires ValidOverrides(list) && ValidOverrides(rest)
    requires forall o <- rest :: o in list
    ensures Distinct(Added(data, rest)) && Answered(Added(data, rest), data, list, status)
    decreases |rest|
  {
    if rest != [] {
      var o, tail := rest[0], rest[1..];
      TailUnique(rest);
      AddedOk(data, list, status, tail);
      AddedNames(data, tail, Lower(o.key));
      AddedLineOk(data, list, status, o);
      JoinLines(AddedLine(data, o), Added(data, tail), data, list, status);
    }
  }

  lemma Suffix(p: string, a: string)
    ensures (p + a)[|p|..] == a
  {
  }

  lemma PrefixInjective(a: string, b: string)
    ensures OVERRIDE_PARAM_PREFIX + a == OVERRIDE_PARAM_PREFIX + b ==> a == b
  {
    Suffix(OVERRIDE_PARAM_PREFIX, a);
    Suffix(OVERRIDE_PARAM_PREFIX, b);
  }

  /** A name under the prefix that the lookup answers is listed. */
  lemma ParameterListed(list: seq<Override>, x: string)
    requires OVERRIDE_PARAM_PREFIX <= x && Lower(x) == x && Find(list, x[|OVERRIDE_PARAM_PREFIX|..]).Some?
    ensures x in Names(Parameters(list))
  {
    var suffix := x[|OVERRIDE_PARAM_PREFIX|..];
    ParameterNames(list, x);
    LowerPrefix(suffix);
    assert x == OVERRIDE_PARAM_PREFIX + suffix;
    PrefixInjective(Lower(suffix), suffix);
  }

  lemma ParameterLine(data: seq<Param>, list: seq<Override>, status: string, o: Override)
    requires ValidOverrides(list) && o in list
    ensures var line := [Entry(OVERRIDE_PARAM_PREFIX + o.key, o.value)];
      Names(line) == {OVERRIDE_PARAM_PREFIX + Lower(o.key)} && Distinct(line) && Answered(line, data, list, status)
  {
    OverrideAnswers(data, list, status, o);
    LowerPrefix(o.key);
  }

  lemma {:induction false} ParametersOk(data: seq<Param>, list: seq<Override>, status: string, rest: seq<Override>)
    requires ValidOverrides(list) && ValidOverrides(rest)
    requires forall o <- rest :: o in list
    ensures Distinct(Parameters(rest)) && Answered(Parameters(rest), data, list, status)
    decreases |rest|
  {
    if rest != [] {
      var o, tail := rest[0], rest[1..];
      var x := OVERRIDE_PARAM_PREFIX + Lower(o.key);
      assert forall i :: 0 <= i < |tail| ==> tail[i] == rest[i + 1];
      ParametersOk(data, list, status, tail);
      assert x !in Names(Parameters(tail)) by {
        ParameterNames(tail, x);
        forall q | q in tail ensures OVERRIDE_PARAM_PREFIX + Lower(q.key) != x {
          PrefixInjective(Lower(q.key), Lower(o.key));
        }
      }
      ParameterLine(data, list, status, o);
      JoinLines([Entry(OVERRIDE_PARAM_PREFIX + o.key, o.value)], Parameters(tail), data, list, status);
    }
  }

  lemma HeadNames(status: string)
    ensures var head := [Entry(UPS_STATUS, status), Entry(DEVICE_TYPE, "ups")];
      Names(head) == {UPS_STATUS, DEVICE_TYPE} && Distinct(head)
  {
    var head := [Entry(UPS_STATUS, status), Entry(DEVICE_TYPE, "ups")];
    Literals("");
    NamesConcat([head[0]], [head[1]]);
    assert head == [head[0]] + [head[1]];
    assert Names([head[0]]) == {UPS_STATUS} && Names([head[1]]) == {DEVICE_TYPE};
    DistinctConcat([head[0]], [head[1]]);
  }

  /** The names of the whole listing. */
  lemma ListingNames(data: seq<Param>, list: seq<Override>, status: string)
    ensures Names(Listing(data, list, status)) ==
      {UPS_STATUS, DEVICE_TYPE} + (Names(AliasLines(data, list, status, 3))
      + (Names(Reported(data, list)) + (Names(Added(data, list)) + Names(Parameters(list)))))
  {
    var a, r, d, p := AliasLines(data, list, status, 3), Reported(data, list), Added(data, list), Parameters(list);
    NamesConcat(d, p);
    NamesConcat(r, d + p);
    NamesConcat(a, r + (d + p));
    var head := [Entry(UPS_STATUS, status), Entry(DEVICE_TYPE, "ups")];
    NamesConcat(head, a + (r + (d + p)));
    Literals("");
    HeadNames(status);
  }

  /** The parts of the listing name different things. */
  lemma PartsApart(data: seq<Param>, list: seq<Override>, status: string, x: string)
    requires ValidOverrides(list) && WellKeyed(data)
    ensures x in {UPS_STATUS, DEVICE_TYPE} ==>
      && !IsAlias(x) && x !in Names(Reported(data, list))
      && x !in Names(Added(data, list)) && x !in Names(Parameters(list))
    ensures IsAlias(x) ==>
      x !in Names(Reported(data, list)) && x !in Names(Added(data, list)) && x !in Names(Parameters(list))
    ensures x in Names(Reported(data, list)) ==> x !in Names(Added(data, list)) && x !in Names(Parameters(list))
    ensures x in Names(Added(data, list)) ==> x !in Names(Parameters(list))
  {
    Literals(x);
    ReportedNames(data, list, x);
    AddedNames(data, list, x);
    ParameterNames(list, x);
    forall o | o in list ensures !Reserved(Lower(o.key)) || IsAlias(Lower(o.key)) {
      OverrideAnswers(data, list, status, o);
    }
  }

  lemma AliasNamesAre(data: seq<Param>, list: seq<Override>, status: string, x: string)
    ensures x in Names(AliasLines(data, list, status, 3)) <==> IsAlias(x) && Resolve(data, list, status, x).Some?
  {
    AliasNames(data, list, status, 3);
    if IsAlias(x) {
      var i := if x == AliasName(0) then 0 else if x == AliasName(1) then 1 else 2;
      assert AliasName(i) == x;
    }
  }

  /** A name stands in one part of the listing at most. */
  lemma ApartAt(data: seq<Param>, list: seq<Override>, status: string, x: string)
    requires ValidOverrides(list) && WellKeyed(data)
    ensures var a, r := Names(AliasLines(data, list, status, 3)), Names(Reported(data, list));
      var d, p := Names(Added(data, list)), Names(Parameters(list));
      && (x == UPS_STATUS || x == DEVICE_TYPE ==> x !in a && x !in r && x !in d && x !in p)
      && (x in a ==> x !in r && x !in d && x !in p)
      && (x in r ==> x !in d && x !in p) && (x in d ==> x !in p)
  {
    PartsApart(data, list, status, x);
    AliasNamesAre(data, list, status, x);
  }

  lemma PartsDisjoint(data: seq<Param>, list: seq<Override>, status: string)
    requires ValidOverrides(list) && WellKeyed(data)
    ensures var a, r := Names(AliasLines(data, list, status, 3)), Names(Reported(data, list));
      var d, p := Names(Added(data, list)), Names(Parameters(list));
      {UPS_STATUS, DEVICE_TYPE} !! a + (r + (d + p)) && a !! r + (d + p) && r !! d + p && d !! p
  {
    var a, r := Names(AliasLines(data, list, status, 3)), Names(Reported(data, list));
    var d, p := Names(Added(data, list)), Names(Parameters(list));
    forall x
      ensures x in {UPS_STATUS, DEVICE_TYPE} ==> x !in a + (r + (d + p))
      ensures x in a ==> x !in r + (d + p)
      ensures x in r ==> x !in d + p
      ensures x in d ==> x !in p
    {
      ApartAt(data, list, status, x);
    }
  }

  lemma HeadOk(data: seq<Param>, list: seq<Override>, status: string)
    ensures var head := [Entry(UPS_STATUS, status), Entry(DEVICE_TYPE, "ups")];
      Names(head) == {UPS_STATUS, DEVICE_TYPE} && Distinct(head) && Answered(head, data, list, status)
  {
    HeadNames(status);
    Literals(UPS_STATUS);
    Literals(DEVICE_TYPE);
  }

  lemma ListingDistinct(data: seq<Param>, list: seq<Override>, status: string)
    requires DistinctKeys(data) && ValidOverrides(list) && WellKeyed(data)
    ensures Distinct(Listing(data, list, status)) && Answered(Listing(data, list, status), data, list, status)
  {
    var a, r, d, p := AliasLines(data, list, status, 3), Reported(data, list), Added(data, list), Parameters(list);
    PartsDisjoint(data, list, status);
    AliasNames(data, list, status, 3);
    ReportedOk(data, list, status, data);
    AddedOk(data, list, status, list);
    ParametersOk(data, list, status, list);
    JoinLines(d, p, data, list, status);
    JoinLines(r, d + p, data, list, status);
    JoinLines(a, r + (d + p), data, list, status);
    HeadOk(data, list, status);
    JoinLines([Entry(UPS_STATUS, status), Entry(DEVICE_TYPE, "ups")], a + (r + (d + p)), data, list, status);
  }

  /** Everything the lookup answers is listed, whatever the keys. */
  lemma ListingCovers(data: seq<Param>, list: seq<Override>, status: string, x: string)
    requires Lower(x) == x && Resolve(data, list, status, x).Some?
    ensures x in Names(Listing(data, list, status))
  {
    ListingNames(data, list, status);
    AliasNamesAre(data, list, status, x);
    ReportedNames(data, list, x);
    AddedNames(data, list, x);
    if x != UPS_STATUS && x != DEVICE_TYPE && !IsAlias(x) {
      if OVERRIDE_PARAM_PREFIX <= x {
        ParameterListed(list, x);
      } else if Get(data, x).Some? {
        var p :| p in data && p.key == x;
      }
    }
  }

  // ----- Necessary -----

  /** Two keys of the UPS that differ only in case are listed under one name. */
  lemma {:induction false} SameNameTwice(rest: seq<Param>, list: seq<Override>, p: Param, q: Param)
    requires p in rest && q in rest && p != q && !Internal(p.key) && !Internal(q.key)
    requires Lower(p.key) == Lower(q.key)
    ensures !Distinct(Reported(rest, list))
    decreases |rest|
  {
    var line, tail := ReportedLine(rest[0], list), rest[1..];
    DistinctConcat(line, Reported(tail, list));
    ReportedLineNames(rest[0], list);
    ReportedNames(tail, list, Lower(p.key));
    assert rest == [rest[0]] + tail;
    if p in tail && q in tail {
      SameNameTwice(tail, list, p, q);
    } else {
      assert Lower(p.key) in Names(line) && Lower(p.key) in Names(Reported(tail, list));
    }
  }

  lemma DistinctParts(data: seq<Param>, list: seq<Override>, status: string)
    requires Distinct(Listing(data, list, status))
    ensures Distinct(Reported(data, list))
    ensures forall x <- Names(Reported(data, list)) ::
      && x != UPS_STATUS && x != DEVICE_TYPE
      && x !in Names(AliasLines(data, list, status, 3))
      && x !in Names(Added(data, list)) && x !in Names(Parameters(list))
  {
    var a, r, d, p := AliasLines(data, list, status, 3), Reported(data, list), Added(data, list), Parameters(list);
    DistinctConcat([Entry(UPS_STATUS, status), Entry(DEVICE_TYPE, "ups")], a + (r + (d + p)));
    DistinctConcat(a, r + (d + p));
    DistinctConcat(r, d + p);
    NamesConcat(a, r + (d + p));
    NamesConcat(r, d + p);
    NamesConcat(d, p);
    HeadNames(status);
  }

  /** What the lookup answers under a listed UPS key it answers from another key of the UPS. */
  lemma OnlyAnotherKeyAnswers(data: seq<Param>, list: seq<Override>, status: string, x: string)
    requires x in Names(Reported(data, list)) && Lower(x) == x
    requires Distinct(Listing(data, list, status)) && Resolve(data, list, status, x).Some?
    ensures !Reserved(x) && Get(data, x).Some?
  {
    DistinctParts(data, list, status);
    AliasNamesAre(data, list, status, x);
    AddedNames(data, list, x);
    if OVERRIDE_PARAM_PREFIX <= x {
      Literals(x);
      ParameterListed(list, x);
    }
  }

  lemma BadKeyBreaks(data: seq<Param>, list: seq<Override>, status: string, p: Param)
    requires p in data && !Internal(p.key)
    requires Lower(p.key) != p.key || Reserved(p.key)
    requires Distinct(Listing(data, list, status))
    ensures Resolve(data, list, status, Lower(p.key)).None?
  {
    var x := Lower(p.key);
    LowerIdempotent(p.key);
    ReportedNames(data, list, x);
    if Resolve(data, list, status, x).Some? {
      OnlyAnotherKeyAnswers(data, list, status, x);
      DistinctParts(data, list, status);
      var q := Param(x, Get(data, x).value);
      SameNameTwice(data, list, p, q);
    }
  }

  lemma AnsweredName(lines: seq<Entry>, data: seq<Param>, list: seq<Override>, status: string, x: string)
    requires Answered(lines, data, list, status) && x in Names(lines)
    ensures Resolve(data, list, status, x).Some?
  {
  }

  lemma AgreesNames(lines: seq<Entry>, data: seq<Param>, list: seq<Override>, status: string)
    ensures Agrees(lines, data, list, status) <==>
      && Distinct(lines) && Answered(lines, data, list, status)
      && (forall x: string :: Lower(x) == x && Resolve(data, list, status, x).Some? ==> x in Names(lines))
  {
    DistinctByIndex(lines);
  }

  /**
   LIST VAR is exactly the graph of the GET VAR lookup if and only if every key of the UPS that is not
   internal is in lower case and none of the names the server makes itself.
   */
  lemma ListingIsTheGraphOfTheLookup(data: seq<Param>, list: seq<Override>, status: string)
    requires DistinctKeys(data) && ValidOverrides(list)
    ensures Agrees(Listing(data, list, status), data, list, status) <==> WellKeyed(data)
  {
    var lines := Listing(data, list, status);
    AgreesNames(lines, data, list, status);
    forall x: string | Lower(x) == x && Resolve(data, list, status, x).Some? ensures x in Names(lines) {
      ListingCovers(data, list, status, x);
    }
    if WellKeyed(data) {
      ListingDistinct(data, list, status);
    } else if Agrees(lines, data, list, status) {
      var p :| p in data && !Internal(p.key) && (Lower(p.key) != p.key || Reserved(p.key));
      ReportedNames(data, list, Lower(p.key));
      ListingNames(data, list, status);
      AnsweredName(lines, data, list, status, Lower(p.key));
      BadKeyBreaks(data, list, status, p);
    }
  }

  /** A key of the three-phase UPSes, stored as the table of variables spells it. */
  const THREE_PHASE_KEY := "input.L1-N.voltage"

  lemma ThreePhaseLiterals()
    ensures var x := Lower(THREE_PHASE_KEY);
      && x != THREE_PHASE_KEY && !Internal(THREE_PHASE_KEY) && !Internal(x) && x != UPS_STATUS && x != DEVICE_TYPE
      && !(OVERRIDE_PARAM_PREFIX <= x) && !IsAlias(x)
  {
    var x := Lower(THREE_PHASE_KEY);
    assert THREE_PHASE_KEY[0] == 'i' && THREE_PHASE_KEY[6] == 'L' && x[0] == 'i' && x[6] == 'l';
    assert INTERNAL_PREFIX[0] == 'u' && UPS_STATUS[0] == 'u';
    assert DEVICE_TYPE[0] == 'd' && OVERRIDE_PARAM_PREFIX[0] == 'd';
    assert AliasName(0)[0] == 'd' && AliasName(1)[0] == 'd' && AliasName(2)[0] == 'd';
  }

  /** On such a UPS the two disagree: LIST VAR lists the variable and GET VAR says it does not exist. */
  lemma ThreePhaseKeyBreaks(value: string, status: string)
    ensures var data := [Param(THREE_PHASE_KEY, value)];
      && Entry(THREE_PHASE_KEY, value) in Listing(data, [], status)
      && Resolve(data, [], status, Lower(THREE_PHASE_KEY)).None?
      && !Agrees(Listing(data, [], status), data, [], status)
  {
    var data := [Param(THREE_PHASE_KEY, value)];
    ThreePhaseLiterals();
    assert Param(THREE_PHASE_KEY, value) in data && !WellKeyed(data);
    ListingIsTheGraphOfTheLookup(data, [], status);
    assert Reported(data, []) == [Entry(THREE_PHASE_KEY, value)] by {
      assert data[1..] == [] && ReportedLine(data[0], []) == [Entry(THREE_PHASE_KEY, value)];
      assert Reported(data, []) == ReportedLine(data[0], []) + Reported(data[1..], []);
    }
    assert Entry(THREE_PHASE_KEY, value) in Reported(data, []);
    assert Get(data, Lower(THREE_PHASE_KEY)).None?;
  }

  /** On the wire: a client that splits a line of LIST VAR reads a name and the value GET VAR answers to it. */
  lemma ListedLineReadsAsLookup(data: seq<Param>, list: seq<Override>, status: string, ups: string, e: Entry)
    requires DistinctKeys(data) && ValidOverrides(list) && WellKeyed(data) && e in Listing(data, list, status)
    requires NutTokens.ValidUpsName(ups) && NutTokens.ValidUpsName(e.name)
    ensures Resolve(data, list, status, Lower(e.name)).Some?
    ensures NutTokens.Split(NutTokens.VarLine(ups, e.name, e.value))
         == ["VAR", ups, e.name, CStr(Resolve(data, list, status, Lower(e.name)).value)]
  {
    ListingIsTheGraphOfTheLookup(data, list, status);
    NutTokens.SplitReadsVarLine(ups, e.name, e.value);
  }
}
