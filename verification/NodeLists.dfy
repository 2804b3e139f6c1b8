/**
 The comma-joined node lists that placement writes into a revision
 (pkg/partition/consistent/hashing.go) and that piping splits again
 (pkg/piping/sync_async_piping_manager.go).
 */
module NodeLists {
  import opened Options

  predicate CommaFree(name: string) {
    ',' !in name
  }

  /** strings.Join(names, ",") */
  function Join(names: seq<string>): string {
    if names == [] then ""
    else if |names| == 1 then names[0]
    else names[0] + "," + Join(names[1..])
  }

  /** strings.Split(s, ","): never empty, and no piece has a comma. */
  function Split(s: string): (pieces: seq<string>)
    ensures pieces != []
    ensures forall i :: 0 <= i < |pieces| ==> CommaFree(pieces[i])
  {
    if s == "" then [""]
    else
      var rest := Split(s[1..]);
      if s[0] == ',' then [""] + rest
      else [[s[0]] + rest[0]] + rest[1..]
  }

  datatype Stores = Stores(sync: seq<string>, async: seq<string>)

  /** The first entry lists the sync nodes, the second, if there are exactly two, the async ones. */
  function SplitStores(stores: seq<string>): (r: Option<Stores>)
    ensures r.None? <==> stores == []
    ensures r.Some? ==> r.value.sync != []
    ensures r.Some? && |stores| != 2 ==> r.value.async == []
  {
    if stores == [] then None
    else Some(Stores(Split(stores[0]), if |stores| == 2 then Split(stores[1]) else []))
  }

  /** A comma-free name in front of a comma is split off whole. */
  lemma {:induction false} SplitHead(name: string, rest: string)
    requires CommaFree(name)
    ensures Split(name + "," + rest) == [name] + Split(rest)
  {
    var s := name + "," + rest;
    if name == "" {
      assert s[1..] == rest;
    } else {
      assert s[1..] == name[1..] + "," + rest;
      SplitHead(name[1..], rest);
      assert [name[0]] + name[1..] == name;
      assert s[0] != ',' by {
        assert name[0] in name;
      }
    }
  }

  lemma {:induction false} SplitName(name: string)
    requires CommaFree(name)
    ensures Split(name) == [name]
  {
    if name != "" {
      SplitName(name[1..]);
      assert name[0] in name;
      assert [name[0]] + name[1..] == name;
    }
  }

  lemma {:induction false} SplitUndoesJoin(names: seq<string>)
    requires names != [] && forall i :: 0 <= i < |names| ==> CommaFree(names[i])
    ensures Split(Join(names)) == names
  {
    if |names| == 1 {
      SplitName(names[0]);
    } else {
      SplitHead(names[0], Join(names[1..]));
      SplitUndoesJoin(names[1..]);
    }
  }

  /** Exactly the non-empty lists of comma-free names survive; an empty name is no obstacle. */
  lemma RoundTripIsExact(names: seq<string>)
    ensures Split(Join(names)) == names <==> names != [] && forall i :: 0 <= i < |names| ==> CommaFree(names[i])
  {
    if names != [] && forall i :: 0 <= i < |names| ==> CommaFree(names[i]) {
      SplitUndoesJoin(names);
    }
  }

  /** An empty list comes back as one empty name. */
  function OrBlank(names: seq<string>): seq<string> {
    if names == [] then [""] else names
  }

  /** What GetNodes writes, splitStores reads back, empty lists as one empty name. */
  lemma StoresRoundTrip(sync: seq<string>, async: seq<string>)
    requires forall i :: 0 <= i < |sync| ==> CommaFree(sync[i])
    requires forall i :: 0 <= i < |async| ==> CommaFree(async[i])
    ensures SplitStores([Join(sync), Join(async)]) == Some(Stores(OrBlank(sync), OrBlank(async)))
  {
    RoundTripIsExact(sync);
    RoundTripIsExact(async);
  }

  // ---------------------------------------------------------------- what piping does with the lists

  /** Write skips empty names. */
  function Targets(names: seq<string>): (r: seq<string>)
    ensures forall i :: 0 <= i < |r| ==> r[i] != "" && r[i] in names
  {
    if names == [] then []
    else if names[0] == "" then Targets(names[1..])
    else [names[0]] + Targets(names[1..])
  }

  /** Read's choice: the first sync name, whatever it is, even an empty one. */
  function ReadTarget(stores: seq<string>): (r: Option<string>)
    ensures r.None? <==> stores == []
  {
    match SplitStores(stores)
    case None => None
    case Some(split) => Some(split.sync[0])
  }

  lemma {:induction false} TargetsOfProper(names: seq<string>)
    requires forall i :: 0 <= i < |names| ==> names[i] != ""
    ensures Targets(names) == names
  {
    if names != [] {
      TargetsOfProper(names[1..]);
    }
  }

  /** Write reaches the joined names exactly when all are proper ones; an empty list then means no writes. */
  lemma WriteTargetsAreExact(names: seq<string>)
    ensures Targets(Split(Join(names))) == names <==>
            forall i :: 0 <= i < |names| ==> names[i] != "" && CommaFree(names[i])
  {
    var pieces := Split(Join(names));
    if forall i :: 0 <= i < |names| ==> names[i] != "" && CommaFree(names[i]) {
      if names == [] {
        assert Targets([""]) == Targets([""][1..]);
      } else {
        SplitUndoesJoin(names);
        TargetsOfProper(names);
      }
    }
  }
}
