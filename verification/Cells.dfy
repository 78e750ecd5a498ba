/** The catalog of cells, indexed by a short fingerprint of their public key. */
module Cells {
  import opened Wrappers

  const STANDARD_PORT := 443

  type Key = seq<bv8>

  /** What an operator writes; the key is None when its text decodes to no
      32-byte key. */
  datatype Entry = Entry(key: Option<Key>, cellID: string, host: string, port: int)

  datatype Endpoint = Endpoint(cellID: string, host: string, port: int)

  datatype Cell = Cell(endpoint: Endpoint, key: Key)

  datatype Fault = BadKey | NoHost | BadPort | Collision | SharedKey

  datatype Problem = NoEntries | BadEntry(at: nat, fault: Fault)

  function TrimLeft(s: string): string {
    if s != "" && IsSpace(s[0]) then TrimLeft(s[1..]) else s
  }

  function TrimRight(s: string): string {
    if s != "" && IsSpace(s[|s| - 1]) then TrimRight(s[..|s| - 1]) else s
  }

  function Trim(s: string): string {
    TrimRight(TrimLeft(s))
  }

  lemma {:induction false} TrimLeftStrips(s: string) returns (front: string)
    ensures s == front + TrimLeft(s) && forall c | c in front :: IsSpace(c)
    ensures TrimLeft(s) != "" ==> !IsSpace(TrimLeft(s)[0])
  {
    hide IsSpace;
    if s != "" && IsSpace(s[0]) {
      var rest := TrimLeftStrips(s[1..]);
      front := [s[0]] + rest;
    } else {
      front := "";
    }
  }

  lemma {:induction false} TrimRightStrips(s: string) returns (back: string)
    ensures s == TrimRight(s) + back && forall c | c in back :: IsSpace(c)
    ensures TrimRight(s) != "" ==> !IsSpace(TrimRight(s)[|TrimRight(s)| - 1]) && TrimRight(s)[0] == s[0]
  {
    hide IsSpace;
    if s != "" && IsSpace(s[|s| - 1]) {
      var rest := TrimRightStrips(s[..|s| - 1]);
      back := rest + [s[|s| - 1]];
    } else {
      back := "";
    }
  }

  /** Trimming takes white space off both ends, all of it, and nothing else. */
  lemma TrimStrips(s: string) returns (front: string, back: string)
    ensures s == front + Trim(s) + back && (forall c | c in front + back :: IsSpace(c))
    ensures Trim(s) != "" ==> !IsSpace(Trim(s)[0]) && !IsSpace(Trim(s)[|Trim(s)| - 1])
  {
    hide IsSpace, TrimLeft, TrimRight;
    front := TrimLeftStrips(s);
    back := TrimRightStrips(TrimLeft(s));
  }

  function CellOf(e: Entry): Cell {
    Cell(Endpoint(e.cellID, Trim(e.host), e.port), if e.key.Some? then e.key.value else [])
  }

  /** An entry on its own. */
  function FaultOf(e: Entry): Option<Fault> {
    if e.key.None? then Some(BadKey)
    else if Trim(e.host) == "" then Some(NoHost)
    else if e.port != STANDARD_PORT then Some(BadPort)
    else None
  }

  predicate Clean(entries: seq<Entry>) {
    forall e <- entries :: FaultOf(e).None?
  }

  function Print(e: Entry, fingerprint: Key -> string): string {
    if e.key.Some? then fingerprint(e.key.value) else ""
  }

  predicate Distinct(entries: seq<Entry>, fingerprint: Key -> string) {
    forall i, j | 0 <= i < j < |entries| :: Print(entries[i], fingerprint) != Print(entries[j], fingerprint)
  }

  /** The first entry with the fingerprint asked for. */
  function Scan(entries: seq<Entry>, fingerprint: Key -> string, wanted: string): Option<Cell>
    requires Clean(entries)
  {
    if entries == [] then None
    else if Print(entries[0], fingerprint) == wanted then Some(CellOf(entries[0]))
    else Scan(entries[1..], fingerprint, wanted)
  }

  datatype Lookup = Unknown | Found(endpoint: Endpoint) | KeyMismatch

  /** Equal short fingerprints are not equal keys. */
  function Match(cell: Option<Cell>, key: Key): Lookup {
    match cell
    case None => Unknown
    case Some(c) => if c.key == key then Found(c.endpoint) else KeyMismatch
  }

  /** The index holds exactly these entries. */
  ghost predicate Indexes(index: map<string, Cell>, entries: seq<Entry>, fingerprint: Key -> string)
    requires Clean(entries)
  {
    && (forall e <- entries :: Print(e, fingerprint) in index && index[Print(e, fingerprint)] == CellOf(e))
    && (forall f <- index :: exists e :: e in entries && Print(e, fingerprint) == f)
  }

  /** Why an entry cannot join those before it. */
  ghost predicate Refused(earlier: seq<Entry>, e: Entry, fingerprint: Key -> string, fault: Fault) {
    match FaultOf(e)
    case Some(own) => fault == own
    case None =>
      exists d :: d in earlier && Print(d, fingerprint) == Print(e, fingerprint) &&
                  fault == (if d.key == e.key then SharedKey else Collision)
  }

  lemma Extends(index: map<string, Cell>, entries: seq<Entry>, e: Entry, fingerprint: Key -> string)
    requires Clean(entries) && FaultOf(e).None? && Distinct(entries, fingerprint)
    requires Indexes(index, entries, fingerprint) && Print(e, fingerprint) !in index
    ensures Clean(entries + [e]) && Distinct(entries + [e], fingerprint)
    ensures Indexes(index[Print(e, fingerprint) := CellOf(e)], entries + [e], fingerprint)
  {
    hide FaultOf, CellOf;
    var more := entries + [e];
    forall i, j | 0 <= i < j < |more|
      ensures Print(more[i], fingerprint) != Print(more[j], fingerprint)
    {
      assert more[i] in entries;
    }
    var next := index[Print(e, fingerprint) := CellOf(e)];
    forall f | f in next
      ensures exists d :: d in more && Print(d, fingerprint) == f
    {
      if f != Print(e, fingerprint) {
        var d :| d in entries && Print(d, fingerprint) == f;
        assert d in more;
      } else {
        assert e in more;
      }
    }
  }

  lemma ClashIsNotDistinct(entries: seq<Entry>, n: nat, d: Entry, fingerprint: Key -> string)
    requires n < |entries| && d in entries[..n] && Print(d, fingerprint) == Print(entries[n], fingerprint)
    ensures !Distinct(entries, fingerprint)
  {
    var i :| 0 <= i < n && entries[..n][i] == d;
    assert entries[i] == d;
  }

  /** A catalog is built from entries that are each sound and whose fingerprints
      are distinct; otherwise the first entry that breaks this is named, with
      why. */
  method NewCatalog(entries: seq<Entry>, fingerprint: Key -> string) returns (r: Result<map<string, Cell>, Problem>)
    ensures r.Success? <==> entries != [] && Clean(entries) && Distinct(entries, fingerprint)
    ensures r == Failure(NoEntries) <==> entries == []
    ensures r.Success? ==> Indexes(r.value, entries, fingerprint)
    ensures r.Failure? && r.error.BadEntry? ==>
              var at := r.error.at;
              && at < |entries| && Clean(entries[..at]) && Distinct(entries[..at], fingerprint)
              && Refused(entries[..at], entries[at], fingerprint, r.error.fault)
  {
    hide CellOf, Trim;
    if entries == [] {
      return Failure(NoEntries);
    }
    var index: map<string, Cell> := map[];
    for i := 0 to |entries|
      invariant Clean(entries[..i]) && Distinct(entries[..i], fingerprint)
      invariant Indexes(index, entries[..i], fingerprint)
    {
      var e := entries[i];
      assert e in entries;
      if e.key.None? {
        return Failure(BadEntry(i, BadKey));
      }
      if Trim(e.host) == "" {
        return Failure(BadEntry(i, NoHost));
      }
      if e.port != STANDARD_PORT {
        return Failure(BadEntry(i, BadPort));
      }
      var f := fingerprint(e.key.value);
      if f in index {
        ghost var d :| d in entries[..i] && Print(d, fingerprint) == f;
        ClashIsNotDistinct(entries, i, d, fingerprint);
        IndexedKey(d);
        return Failure(BadEntry(i, if index[f].key == e.key.value then SharedKey else Collision));
      }
      Extends(index, entries[..i], e, fingerprint);
      assert entries[..i + 1] == entries[..i] + [e];
      index := index[f := CellOf(e)];
    }
    assert entries[..|entries|] == entries;
    return Success(index);
  }

  lemma IndexedKey(e: Entry)
    requires e.key.Some?
    ensures CellOf(e).key == e.key.value
  {
  }

  function LookUp(index: map<string, Cell>, fingerprint: Key -> string, key: Key): Lookup {
    var f := fingerprint(key);
    if key == [] || f !in index then Unknown
    else if index[f].key == key then Found(index[f].endpoint)
    else KeyMismatch
  }

  lemma {:induction false} ScanFinds(entries: seq<Entry>, fingerprint: Key -> string, e: Entry)
    requires e in entries && Clean(entries) && Distinct(entries, fingerprint)
    ensures Scan(entries, fingerprint, Print(e, fingerprint)) == Some(CellOf(e))
    decreases |entries|
  {
    hide FaultOf, Print;
    if entries[0] != e {
      assert e in entries[1..];
      assert Distinct(entries[1..], fingerprint) by {
        forall i, j | 0 <= i < j < |entries[1..]|
          ensures Print(entries[1..][i], fingerprint) != Print(entries[1..][j], fingerprint)
        {
          assert Print(entries[i + 1], fingerprint) != Print(entries[j + 1], fingerprint);
        }
      }
      var k :| 0 <= k < |entries| && entries[k] == e;
      assert Print(entries[0], fingerprint) != Print(entries[k], fingerprint);
      ScanFinds(entries[1..], fingerprint, e);
    }
  }

  lemma {:induction false} ScanMisses(entries: seq<Entry>, fingerprint: Key -> string, wanted: string)
    requires Clean(entries) && forall e <- entries :: Print(e, fingerprint) != wanted
    ensures Scan(entries, fingerprint, wanted) == None
    decreases |entries|
  {
    if entries != [] {
      ScanMisses(entries[1..], fingerprint, wanted);
    }
  }

  /** Looking a key up in the index is scanning the operator's list, and an entry
      is used only under its own full key. */
  lemma LookUpIsScan(index: map<string, Cell>, entries: seq<Entry>, fingerprint: Key -> string, key: Key)
    requires Clean(entries) && Distinct(entries, fingerprint) && key != []
    requires Indexes(index, entries, fingerprint)
    ensures LookUp(index, fingerprint, key) == Match(Scan(entries, fingerprint, fingerprint(key)), key)
    ensures LookUp(index, fingerprint, key).Found? <==> exists e :: e in entries && e.key == Some(key)
  {
    hide FaultOf, Trim;
    var f := fingerprint(key);
    assert forall d <- entries :: d.key == Some(key) ==> Print(d, fingerprint) == f;
    if f in index {
      var e :| e in entries && Print(e, fingerprint) == f;
      ScanFinds(entries, fingerprint, e);
      assert FaultOf(e).None?;
      HasKey(e);
      assert index[f] == CellOf(e);
      assert forall d <- entries :: Print(d, fingerprint) == f ==> index[f] == CellOf(d);
    } else {
      ScanMisses(entries, fingerprint, f);
    }
  }

  lemma HasKey(e: Entry)
    requires FaultOf(e).None?
    ensures e.key.Some?
  {
  }

  /** What is found under a key is that key's entry: its cell ID as written, its
      host without the white space around it, its port. */
  lemma FoundIsEntry(index: map<string, Cell>, entries: seq<Entry>, fingerprint: Key -> string, key: Key)
    returns (e: Entry)
    requires Clean(entries) && Indexes(index, entries, fingerprint) && LookUp(index, fingerprint, key).Found?
    ensures e in entries && e.key == Some(key) && e.port == 443
    ensures var endpoint := LookUp(index, fingerprint, key).endpoint;
            endpoint.cellID == e.cellID && endpoint.host == Trim(e.host) != "" && endpoint.port == e.port
  {
    hide Trim;
    var f := fingerprint(key);
    e :| e in entries && Print(e, fingerprint) == f;
    assert index[f] == CellOf(e) && FaultOf(e).None?;
  }
}
