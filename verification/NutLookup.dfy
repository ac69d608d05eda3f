/**
 What GET VAR answers (lib/NUTServer/src/NUTServer.cpp), name by name: the lookup stated on the overrides and the
 UPS data themselves, with the names the server makes spelled out.
 */
module NutLookup {
  import opened Prelude
  import opened NutVariables

  /** The page has an override of this name, in any case, with this value. */
  ghost predicate Overrides(list: seq<Override>, name: string, value: string) {
    exists o <- list :: Lower(o.key) == name && o.value == value
  }

  ghost predicate Overridden(list: seq<Override>, name: string) {
    exists o <- list :: Lower(o.key) == name
  }

  /** An override wins over what the UPS reports. */
  ghost predicate Own(data: seq<Param>, list: seq<Override>, name: string, value: string) {
    Overrides(list, name, value) || (!Overridden(list, name) && Param(name, value) in data)
  }

  /** A device name answers for the UPS one, unless it has an override of its own. */
  ghost predicate Copied(data: seq<Param>, list: seq<Override>, name: string, source: string, value: string) {
    Overrides(list, name, value) || (!Overridden(list, name) && Own(data, list, source, value))
  }

  /** The letters keep their place in the alphabet, everything else is as it was. */
  lemma LowerLetters(c: char)
    ensures 'A' <= c <= 'Z' ==> LowerChar(c) as int - 'a' as int == c as int - 'A' as int
    ensures !('A' <= c <= 'Z') ==> LowerChar(c) == c
  {
  }

  lemma FindIsOverride(list: seq<Override>, name: string, value: string)
    requires ValidOverrides(list) && Lower(name) == name
    ensures Overridden(list, name) <==> Find(list, name).Some?
    ensures Overrides(list, name, value) <==> Find(list, name).Some? && Find(list, name).value.value == value
  {
    if Overrides(list, name, value) {
      var o :| o in list && Lower(o.key) == name && o.value == value;
      FindUnique(list, o, name);
    }
  }

  lemma GetIsReported(data: seq<Param>, name: string, value: string)
    requires DistinctKeys(data)
    ensures Param(name, value) in data <==> Get(data, name) == Some(value)
  {
    if Param(name, value) in data {
      GetUnique(data, Param(name, value));
    }
  }

  lemma SourceNames()
    ensures Lower("ups.mfr") == "ups.mfr" && Lower("ups.model") == "ups.model" && Lower("ups.serial") == "ups.serial"
    ensures Lower("device.mfr") == "device.mfr" && Lower("device.model") == "device.model"
    ensures Lower("device.serial") == "device.serial"
  {
  }

  lemma AliasChain(data: seq<Param>, list: seq<Override>, status: string, x: string, value: string)
    requires DistinctKeys(data) && ValidOverrides(list) && IsAlias(x) && Lower(AliasSource(x)) == AliasSource(x)
    ensures Resolve(data, list, status, x) == Some(value) <==> Copied(data, list, x, AliasSource(x), value)
  {
    Literals(x);
    FindIsOverride(list, x, value);
    FindIsOverride(list, AliasSource(x), value);
    GetIsReported(data, AliasSource(x), value);
  }

  /**
   device.mfr, device.model and device.serial answer their own override, else what ups.mfr, ups.model and
   ups.serial have: the override, or what the UPS reports, or nothing.
   */
  lemma DeviceNamesAreTheUpsOnes(data: seq<Param>, list: seq<Override>, status: string, value: string)
    requires DistinctKeys(data) && ValidOverrides(list)
    ensures Resolve(data, list, status, "device.mfr") == Some(value) <==>
      Copied(data, list, "device.mfr", "ups.mfr", value)
    ensures Resolve(data, list, status, "device.model") == Some(value) <==>
      Copied(data, list, "device.model", "ups.model", value)
    ensures Resolve(data, list, status, "device.serial") == Some(value) <==>
      Copied(data, list, "device.serial", "ups.serial", value)
  {
    SourceNames();
    AliasesDiffer();
    AliasChain(data, list, status, "device.mfr", value);
    AliasChain(data, list, status, "device.model", value);
    AliasChain(data, list, status, "device.serial", value);
  }

  /** The status and the type, and no name under ups.status. */
  lemma MadeNames(data: seq<Param>, list: seq<Override>, status: string, rest: string)
    ensures Resolve(data, list, status, "ups.status") == Some(status)
    ensures Resolve(data, list, status, "device.type") == Some("ups")
    ensures Resolve(data, list, status, "ups.status." + rest).None?
  {
    Literals("");
    assert INTERNAL_PREFIX <= "ups.status." + rest;
  }

  /** The parameter of an override is its value. */
  lemma ParameterAnswers(data: seq<Param>, list: seq<Override>, status: string, name: string, value: string)
    requires ValidOverrides(list) && Lower(name) == name
    ensures Resolve(data, list, status, "driver.parameter.override." + name) == Some(value) <==>
      Overrides(list, name, value)
  {
    var x := OVERRIDE_PARAM_PREFIX + name;
    Literals(x);
    Suffix(OVERRIDE_PARAM_PREFIX, name);
    FindIsOverride(list, name, value);
  }

  /** Any other name answers its override, else what the UPS reports under it. */
  lemma OtherNamesAnswer(data: seq<Param>, list: seq<Override>, status: string, x: string, value: string)
    requires DistinctKeys(data) && ValidOverrides(list) && Lower(x) == x
    requires x != "ups.status" && x != "device.type" && !("ups.status." <= x) && !("driver.parameter.override." <= x)
    requires x != "device.mfr" && x != "device.model" && x != "device.serial"
    ensures Resolve(data, list, status, x) == Some(value) <==> Own(data, list, x, value)
  {
    FindIsOverride(list, x, value);
    GetIsReported(data, x, value);
  }

  // ----- The names of the listing, as they were saved -----

  ghost predicate NamedAsSaved(data: seq<Param>, list: seq<Override>, name: string) {
    || name in {"ups.status", "device.type", "device.mfr", "device.model", "device.serial"}
    || (exists p <- data :: p.key == name)
    || (exists o <- list :: o.key == name || "driver.parameter.override." + o.key == name)
  }

  lemma {:induction false} AliasesSpelled(data: seq<Param>, list: seq<Override>, status: string, n: nat)
    requires n <= 3
    ensures forall e <- AliasLines(data, list, status, n) :: e.name in {"device.mfr", "device.model", "device.serial"}
  {
    if n > 0 {
      AliasesSpelled(data, list, status, n - 1);
    }
  }

  lemma {:induction false} ReportedSpelled(rest: seq<Param>, list: seq<Override>)
    ensures forall e <- Reported(rest, list) ::
      (exists p <- rest :: p.key == e.name) || (exists o <- list :: o.key == e.name)
    decreases |rest|
  {
    if rest != [] {
      ReportedSpelled(rest[1..], list);
      assert rest[0] in rest && forall p <- rest[1..] :: p in rest;
    }
  }

  lemma {:induction false} AddedSpelled(data: seq<Param>, rest: seq<Override>)
    ensures forall e <- Added(data, rest) :: exists o <- rest :: o.key == e.name
    decreases |rest|
  {
    if rest != [] {
      AddedSpelled(data, rest[1..]);
      assert rest[0] in rest && forall o <- rest[1..] :: o in rest;
    }
  }

  lemma {:induction false} ParametersSpelled(rest: seq<Override>)
    ensures forall e <- Parameters(rest) :: exists o <- rest :: "driver.parameter.override." + o.key == e.name
    decreases |rest|
  {
    if rest != [] {
      ParametersSpelled(rest[1..]);
      assert rest[0] in rest && forall o <- rest[1..] :: o in rest;
    }
  }

  /** LIST VAR spells the names as the UPS data and the page have them, whatever the case. */
  lemma ListedNamesAreAsSaved(data: seq<Param>, list: seq<Override>, status: string, e: Entry)
    requires e in Listing(data, list, status)
    ensures NamedAsSaved(data, list, e.name)
  {
    AliasesSpelled(data, list, status, 3);
    ReportedSpelled(data, list);
    AddedSpelled(data, list);
    ParametersSpelled(list);
  }
}
