/** Redacting stored credentials and carrying them forward (platform/shared/identity-provider.ts). */
module Credentials {
  import opened Wrappers

  /** A provider record as a tree. Arrays, numbers, booleans, null and undefined are all Other:
      neither a plain record nor a string. */
  datatype Tree =
    | Text(text: string)
    | Other(what: string)
    | Record(fields: map<string, Tree>)

  type Path = seq<string>

  // ----- One path -----

  /** readAtPath. None stands for undefined. */
  function ReadAt(v: Tree, path: Path): Option<Tree>
    decreases |path|
  {
    if path == [] then Some(v)
    else if v.Record? && path[0] in v.fields then ReadAt(v.fields[path[0]], path[1..])
    else None
  }

  /** deleteAtPath's effect: every segment but the last must lead to a record. */
  function DeleteAt(v: Tree, path: Path): Tree
    requires path != []
    decreases |path|
  {
    if !v.Record? then v
    else if |path| == 1 then Record(v.fields - {path[0]})
    else if path[0] in v.fields then Record(v.fields[path[0] := DeleteAt(v.fields[path[0]], path[1..])])
    else v
  }

  /** writeAtPath's effect: a parent that is missing is not created. */
  function WriteAt(v: Tree, path: Path, text: string): Tree
    requires path != []
    decreases |path|
  {
    if !v.Record? then v
    else if |path| == 1 then Record(v.fields[path[0] := Text(text)])
    else if path[0] in v.fields then Record(v.fields[path[0] := WriteAt(v.fields[path[0]], path[1..], text)])
    else v
  }

  /** A credential counts as present when it is a string with something in it. */
  predicate Populated(o: Option<Tree>) {
    o.Some? && o.value.Text? && o.value.text != ""
  }

  /** Neither leads to the other. */
  predicate Apart(p: Path, q: Path) {
    !(p <= q) && !(q <= p)
  }

  ghost predicate Listed(paths: seq<Path>) {
    && (forall i :: 0 <= i < |paths| ==> paths[i] != [])
    && (forall i, j :: 0 <= i < j < |paths| ==> Apart(paths[i], paths[j]))
  }

  lemma {:induction false} DeletedIsGone(v: Tree, p: Path)
    requires p != []
    ensures ReadAt(DeleteAt(v, p), p).None?
    decreases |p|
  {
    if |p| > 1 && v.Record? && p[0] in v.fields {
      DeletedIsGone(v.fields[p[0]], p[1..]);
    }
  }

  lemma {:induction false} DeleteLeavesOthers(v: Tree, p: Path, q: Path)
    requires p != [] && Apart(p, q)
    ensures ReadAt(DeleteAt(v, p), q) == ReadAt(v, q)
    decreases |p|
  {
    assert q != [] && q[0..] == q;
    if v.Record? && p[0] == q[0] {
      if p[0] in v.fields && |p| > 1 {
        DeleteLeavesOthers(v.fields[p[0]], p[1..], q[1..]);
      }
    }
  }

  lemma {:induction false} WriteLeavesOthers(v: Tree, p: Path, text: string, q: Path)
    requires p != [] && Apart(p, q)
    ensures ReadAt(WriteAt(v, p, text), q) == ReadAt(v, q)
    decreases |p|
  {
    assert q != [] && q[0..] == q;
    if v.Record? && p[0] == q[0] {
      if p[0] in v.fields && |p| > 1 {
        WriteLeavesOthers(v.fields[p[0]], p[1..], text, q[1..]);
      }
    }
  }

  lemma {:induction false} AbsentDelete(v: Tree, p: Path)
    requires p != [] && ReadAt(v, p).None?
    ensures DeleteAt(v, p) == v
    decreases |p|
  {
    if v.Record? {
      if |p| == 1 {
        assert p[1..] == [];
        assert v.fields - {p[0]} == v.fields;
      } else if p[0] in v.fields {
        AbsentDelete(v.fields[p[0]], p[1..]);
      }
    }
  }

  /** Writing a credential back where it was deleted restores the record. */
  lemma {:induction false} WriteUndoesDelete(v: Tree, p: Path, text: string)
    requires p != [] && ReadAt(v, p) == Some(Text(text))
    ensures WriteAt(DeleteAt(v, p), p, text) == v
    decreases |p|
  {
    if |p| == 1 {
      assert p[1..] == [];
      assert (v.fields - {p[0]})[p[0] := Text(text)] == v.fields;
    } else {
      WriteUndoesDelete(v.fields[p[0]], p[1..], text);
      var inner := DeleteAt(v.fields[p[0]], p[1..]);
      assert v.fields[p[0] := inner][p[0] := v.fields[p[0]]] == v.fields;
    }
  }

  lemma {:induction false} DeletesCommute(v: Tree, p: Path, q: Path)
    requires p != [] && q != [] && Apart(p, q)
    ensures DeleteAt(DeleteAt(v, p), q) == DeleteAt(DeleteAt(v, q), p)
    decreases |p|
  {
    if v.Record? {
      if p[0] == q[0] {
        if p[0] in v.fields {
          DeletesCommute(v.fields[p[0]], p[1..], q[1..]);
        }
      } else {
        assert DeleteAt(DeleteAt(v, p), q).fields == DeleteAt(DeleteAt(v, q), p).fields;
      }
    }
  }

  lemma {:induction false} WriteDeleteCommute(v: Tree, p: Path, text: string, q: Path)
    requires p != [] && q != [] && Apart(p, q)
    ensures DeleteAt(WriteAt(v, p, text), q) == WriteAt(DeleteAt(v, q), p, text)
    decreases |p|
  {
    if v.Record? {
      if p[0] == q[0] {
        if p[0] in v.fields {
          WriteDeleteCommute(v.fields[p[0]], p[1..], text, q[1..]);
        }
      } else {
        assert DeleteAt(WriteAt(v, p, text), q).fields == WriteAt(DeleteAt(v, q), p, text).fields;
      }
    }
  }

  lemma {:induction false} DeleteAfterWrite(v: Tree, p: Path, text: string)
    requires p != []
    ensures DeleteAt(WriteAt(v, p, text), p) == DeleteAt(v, p)
    decreases |p|
  {
    if v.Record? {
      if |p| == 1 {
        assert v.fields[p[0] := Text(text)] - {p[0]} == v.fields - {p[0]};
      } else if p[0] in v.fields {
        DeleteAfterWrite(v.fields[p[0]], p[1..], text);
      }
    }
  }

  /** What writing makes of the path itself. */
  lemma {:induction false} WriteReadsBack(v: Tree, p: Path, text: string)
    requires p != []
    ensures ReadAt(WriteAt(v, p, text), p) ==
            if ReadAt(v, p[..|p| - 1]).Some? && ReadAt(v, p[..|p| - 1]).value.Record? then Some(Text(text))
            else None
    ensures !(ReadAt(v, p[..|p| - 1]).Some? && ReadAt(v, p[..|p| - 1]).value.Record?) ==> WriteAt(v, p, text) == v
    decreases |p|
  {
    if |p| == 1 {
      assert p[1..] == [] && p[..0] == [];
    } else if v.Record? && p[0] in v.fields {
      assert p[1..][..|p[1..]| - 1] == p[..|p| - 1][1..];
      WriteReadsBack(v.fields[p[0]], p[1..], text);
      if !(ReadAt(v, p[..|p| - 1]).Some? && ReadAt(v, p[..|p| - 1]).value.Record?) {
        assert v.fields[p[0] := v.fields[p[0]]] == v.fields;
      }
    }
  }

  // ----- All listed paths -----

  function DeleteAll(v: Tree, paths: seq<Path>): Tree
    requires forall i :: 0 <= i < |paths| ==> paths[i] != []
    decreases |paths|
  {
    if paths == [] then v else DeleteAll(DeleteAt(v, paths[0]), paths[1..])
  }

  function PopulatedPaths(v: Tree, paths: seq<Path>): seq<Path>
    decreases |paths|
  {
    if paths == [] then []
    else (if Populated(ReadAt(v, paths[0])) then [paths[0]] else []) + PopulatedPaths(v, paths[1..])
  }

  /** One turn of the preserving loop. */
  function Carry(merged: Tree, existing: Tree, path: Path): Tree
    requires path != []
  {
    var stored := ReadAt(existing, path);
    if Populated(ReadAt(merged, path)) || !Populated(stored) then merged
    else WriteAt(merged, path, stored.value.text)
  }

  function CarryAll(merged: Tree, existing: Tree, paths: seq<Path>): Tree
    requires forall i :: 0 <= i < |paths| ==> paths[i] != []
    decreases |paths|
  {
    if paths == [] then merged else CarryAll(Carry(merged, existing, paths[0]), existing, paths[1..])
  }

  // ----- Redaction -----

  lemma {:induction false} DeleteAllLeavesOthers(v: Tree, paths: seq<Path>, q: Path)
    requires Listed(paths) && forall i :: 0 <= i < |paths| ==> Apart(paths[i], q)
    ensures ReadAt(DeleteAll(v, paths), q) == ReadAt(v, q)
    decreases |paths|
  {
    if paths != [] {
      DeleteLeavesOthers(v, paths[0], q);
      DeleteAllLeavesOthers(DeleteAt(v, paths[0]), paths[1..], q);
    }
  }

  /** After redaction no listed path reads anything. */
  lemma {:induction false} RedactedReadsNothing(v: Tree, paths: seq<Path>, i: nat)
    requires Listed(paths) && i < |paths|
    ensures ReadAt(DeleteAll(v, paths), paths[i]).None?
    decreases |paths|
  {
    if i == 0 {
      DeletedIsGone(v, paths[0]);
      DeleteAllLeavesOthers(DeleteAt(v, paths[0]), paths[1..], paths[0]);
    } else {
      RedactedReadsNothing(DeleteAt(v, paths[0]), paths[1..], i - 1);
    }
  }

  lemma {:induction false} PopulatedPathsByReads(v: Tree, w: Tree, paths: seq<Path>)
    requires forall i :: 0 <= i < |paths| ==> ReadAt(v, paths[i]) == ReadAt(w, paths[i])
    ensures PopulatedPaths(v, paths) == PopulatedPaths(w, paths)
    decreases |paths|
  {
    if paths != [] {
      assert ReadAt(v, paths[0]) == ReadAt(w, paths[0]);
      forall i | 0 <= i < |paths[1..]| ensures ReadAt(v, paths[1..][i]) == ReadAt(w, paths[1..][i]) {
        assert paths[1..][i] == paths[i + 1];
      }
      PopulatedPathsByReads(v, w, paths[1..]);
    }
  }

  lemma {:induction false} DeleteKeepsLater(v: Tree, paths: seq<Path>, n: nat)
    requires Listed(paths) && n < |paths|
    ensures forall i :: n < i < |paths| ==> ReadAt(DeleteAt(v, paths[n]), paths[i]) == ReadAt(v, paths[i])
  {
    forall i | n < i < |paths| ensures ReadAt(DeleteAt(v, paths[n]), paths[i]) == ReadAt(v, paths[i]) {
      DeleteLeavesOthers(v, paths[n], paths[i]);
    }
  }

  lemma {:induction false} FromPath(v: Tree, paths: seq<Path>, n: nat)
    requires Listed(paths) && n < |paths|
    ensures DeleteAll(v, paths[n..]) == DeleteAll(DeleteAt(v, paths[n]), paths[n + 1..])
    ensures PopulatedPaths(v, paths[n..])
         == (if Populated(ReadAt(v, paths[n])) then [paths[n]] else []) + PopulatedPaths(v, paths[n + 1..])
  {
    assert paths[n..][0] == paths[n] && paths[n..][1..] == paths[n + 1..];
  }

  /** The list holds, in order, the paths at which the record has a non-empty string, and no others. */
  ghost predicate Configured(v: Tree, paths: seq<Path>, out: seq<Path>) {
    if paths == [] then out == []
    else if exists text :: text != "" && ReadAt(v, paths[0]) == Some(Text(text)) then
      out != [] && out[0] == paths[0] && Configured(v, paths[1..], out[1..])
    else Configured(v, paths[1..], out)
  }

  lemma {:induction false} ReportsConfigured(v: Tree, paths: seq<Path>)
    ensures Configured(v, paths, PopulatedPaths(v, paths))
  {
    if paths != [] {
      PopulatedExactly(ReadAt(v, paths[0]));
      ReportsConfigured(v, paths[1..]);
      var rest := PopulatedPaths(v, paths[1..]);
      assert ([paths[0]] + rest)[1..] == rest && [] + rest == rest;
    }
  }

  // ----- Carrying forward -----

  lemma {:induction false} CarryAllLeavesOthers(merged: Tree, existing: Tree, paths: seq<Path>, q: Path)
    requires Listed(paths) && forall i :: 0 <= i < |paths| ==> Apart(paths[i], q)
    ensures ReadAt(CarryAll(merged, existing, paths), q) == ReadAt(merged, q)
    decreases |paths|
  {
    if paths != [] {
      if Populated(ReadAt(existing, paths[0])) {
        WriteLeavesOthers(merged, paths[0], ReadAt(existing, paths[0]).value.text, q);
      }
      CarryAllLeavesOthers(Carry(merged, existing, paths[0]), existing, paths[1..], q);
    }
  }

  /** Writing never creates, removes or changes the kind of anything above the leaf. */
  lemma {:induction false} WriteKeepsParents(v: Tree, p: Path, text: string, q: Path)
    requires p != [] && q < p
    ensures ReadAt(WriteAt(v, p, text), q).Some? == ReadAt(v, q).Some?
    ensures ReadAt(v, q).Some? ==> ReadAt(WriteAt(v, p, text), q).value.Record? == ReadAt(v, q).value.Record?
    decreases |p|
  {
    if q != [] && v.Record? && p[0] in v.fields {
      assert |p| > 1 && q[0] == p[0];
      assert q[1..] < p[1..];
      WriteKeepsParents(v.fields[p[0]], p[1..], text, q[1..]);
    }
  }

  lemma {:induction false} CarryAllAt(merged: Tree, existing: Tree, paths: seq<Path>, i: nat)
    requires Listed(paths) && i < |paths|
    ensures ReadAt(CarryAll(merged, existing, paths), paths[i]) == ReadAt(Carry(merged, existing, paths[i]), paths[i])
    decreases |paths|
  {
    if i == 0 {
      CarryAllLeavesOthers(Carry(merged, existing, paths[0]), existing, paths[1..], paths[0]);
    } else {
      var next := Carry(merged, existing, paths[0]);
      CarryAllAt(next, existing, paths[1..], i - 1);
      assert paths[1..][i - 1] == paths[i];
      CarriesAreIndependent(merged, existing, paths[0], paths[i]);
    }
  }

  lemma {:induction false} CarriesAreIndependent(merged: Tree, existing: Tree, p: Path, q: Path)
    requires p != [] && q != [] && Apart(p, q)
    ensures ReadAt(Carry(Carry(merged, existing, p), existing, q), q) == ReadAt(Carry(merged, existing, q), q)
  {
    if Populated(ReadAt(existing, p)) {
      var text := ReadAt(existing, p).value.text;
      WriteLeavesOthers(merged, p, text, q);
      if Populated(ReadAt(existing, q)) {
        var other := ReadAt(existing, q).value.text;
        WriteReadsBack(merged, q, other);
        WriteReadsBack(WriteAt(merged, p, text), q, other);
        var parent := q[..|q| - 1];
        if parent < p {
          WriteKeepsParents(merged, p, text, parent);
        } else {
          assert Apart(p, parent) by {
            assert p <= parent ==> p <= q;
          }
          WriteLeavesOthers(merged, p, text, parent);
        }
      }
    }
  }

  lemma {:induction false} PopulatedExactly(o: Option<Tree>)
    ensures Populated(o) <==> exists text :: text != "" && o == Some(Text(text))
  {
    if Populated(o) {
      assert o == Some(Text(o.value.text));
    }
  }

  /** What a credential is after carrying forward. A non-empty incoming value wins; a blank one
      gives way to the stored one, unless its parent was dropped, which is then not re-created. */
  lemma {:induction false} CarriedCredential(incoming: Tree, existing: Tree, paths: seq<Path>, i: nat)
    requires Listed(paths) && i < |paths|
    ensures var p := paths[i];
            var given, stored, parent := ReadAt(incoming, p), ReadAt(existing, p), ReadAt(incoming, p[..|p| - 1]);
            ReadAt(CarryAll(incoming, existing, paths), p) ==
            if exists text :: text != "" && given == Some(Text(text)) then given
            else if (exists text :: text != "" && stored == Some(Text(text))) && parent.Some? && parent.value.Record?
            then stored
            else given
  {
    var p := paths[i];
    CarryAllAt(incoming, existing, paths, i);
    PopulatedExactly(ReadAt(incoming, p));
    PopulatedExactly(ReadAt(existing, p));
    if Populated(ReadAt(existing, p)) {
      WriteReadsBack(incoming, p, ReadAt(existing, p).value.text);
    }
  }

  // ----- Together -----

  lemma {:induction false} DeleteAllCommutes(v: Tree, paths: seq<Path>, q: Path)
    requires Listed(paths) && q != [] && forall i :: 0 <= i < |paths| ==> Apart(paths[i], q)
    ensures DeleteAt(DeleteAll(v, paths), q) == DeleteAll(DeleteAt(v, q), paths)
    decreases |paths|
  {
    if paths != [] {
      DeleteAllCommutes(DeleteAt(v, paths[0]), paths[1..], q);
      DeletesCommute(v, paths[0], q);
    }
  }

  lemma {:induction false} WriteCommutes(v: Tree, paths: seq<Path>, q: Path, text: string)
    requires Listed(paths) && q != [] && forall i :: 0 <= i < |paths| ==> Apart(paths[i], q)
    ensures WriteAt(DeleteAll(v, paths), q, text) == DeleteAll(WriteAt(v, q, text), paths)
    decreases |paths|
  {
    if paths != [] {
      WriteCommutes(DeleteAt(v, paths[0]), paths[1..], q, text);
      WriteDeleteCommute(v, q, text, paths[0]);
    }
  }

  lemma {:induction false} CarryAllByReads(merged: Tree, a: Tree, b: Tree, paths: seq<Path>)
    requires Listed(paths) && forall i :: 0 <= i < |paths| ==> ReadAt(a, paths[i]) == ReadAt(b, paths[i])
    ensures CarryAll(merged, a, paths) == CarryAll(merged, b, paths)
    decreases |paths|
  {
    if paths != [] {
      assert ReadAt(a, paths[0]) == ReadAt(b, paths[0]);
      forall i | 0 <= i < |paths[1..]| ensures ReadAt(a, paths[1..][i]) == ReadAt(b, paths[1..][i]) {
        assert paths[1..][i] == paths[i + 1];
      }
      CarryAllByReads(Carry(merged, a, paths[0]), a, b, paths[1..]);
    }
  }

  /** The record without the listed leaves that hold no credential: blank strings and non-strings. */
  function DropBlank(v: Tree, paths: seq<Path>): Tree
    requires forall i :: 0 <= i < |paths| ==> paths[i] != []
    decreases |paths|
  {
    if paths == [] then v
    else DropBlank(if Populated(ReadAt(v, paths[0])) then v else DeleteAt(v, paths[0]), paths[1..])
  }

  /** Redacting and then carrying the stored values forward gives the record back, bar its blanks. */
  lemma {:induction false} RoundTrip(v: Tree, paths: seq<Path>)
    requires Listed(paths)
    ensures CarryAll(DeleteAll(v, paths), v, paths) == DropBlank(v, paths)
    decreases |paths|
  {
    if paths != [] {
      var p, rest := paths[0], paths[1..];
      var gone := DeleteAt(v, p);
      DeletedIsGone(v, p);
      DeleteAllLeavesOthers(gone, rest, p);
      var next := if Populated(ReadAt(v, p)) then v else gone;
      if Populated(ReadAt(v, p)) {
        WriteCommutes(gone, rest, p, ReadAt(v, p).value.text);
        WriteUndoesDelete(v, p, ReadAt(v, p).value.text);
      }
      forall i | 0 <= i < |rest| ensures ReadAt(v, rest[i]) == ReadAt(next, rest[i]) {
        DeleteLeavesOthers(v, p, rest[i]);
      }
      CarryAllByReads(DeleteAll(next, rest), v, next, rest);
      RoundTrip(next, rest);
    }
  }

  lemma {:induction false} NothingBlank(v: Tree, paths: seq<Path>)
    requires Listed(paths)
    ensures DropBlank(v, paths) == v <==>
            forall i :: 0 <= i < |paths| && ReadAt(v, paths[i]).Some? ==> Populated(ReadAt(v, paths[i]))
    decreases |paths|
  {
    if forall i :: 0 <= i < |paths| && ReadAt(v, paths[i]).Some? ==> Populated(ReadAt(v, paths[i])) {
      if paths != [] {
        if !Populated(ReadAt(v, paths[0])) {
          AbsentDelete(v, paths[0]);
        }
        forall i | 0 <= i < |paths[1..]| && ReadAt(v, paths[1..][i]).Some?
          ensures Populated(ReadAt(v, paths[1..][i]))
        {
          assert paths[1..][i] == paths[i + 1];
        }
        NothingBlank(v, paths[1..]);
      }
    } else {
      var i :| 0 <= i < |paths| && ReadAt(v, paths[i]).Some? && !Populated(ReadAt(v, paths[i]));
      BlankIsDropped(v, paths, i);
    }
  }

  lemma {:induction false} DropBlankLeavesOthers(v: Tree, paths: seq<Path>, q: Path)
    requires Listed(paths) && forall i :: 0 <= i < |paths| ==> Apart(paths[i], q)
    ensures ReadAt(DropBlank(v, paths), q) == ReadAt(v, q)
    decreases |paths|
  {
    if paths != [] {
      DeleteLeavesOthers(v, paths[0], q);
      DropBlankLeavesOthers(if Populated(ReadAt(v, paths[0])) then v else DeleteAt(v, paths[0]), paths[1..], q);
    }
  }

  lemma {:induction false} BlankIsDropped(v: Tree, paths: seq<Path>, i: nat)
    requires Listed(paths) && i < |paths| && !Populated(ReadAt(v, paths[i]))
    ensures ReadAt(DropBlank(v, paths), paths[i]).None?
    decreases |paths|
  {
    if i == 0 {
      DeletedIsGone(v, paths[0]);
      DropBlankLeavesOthers(DeleteAt(v, paths[0]), paths[1..], paths[0]);
    } else {
      var next := if Populated(ReadAt(v, paths[0])) then v else DeleteAt(v, paths[0]);
      DeleteLeavesOthers(v, paths[0], paths[i]);
      BlankIsDropped(next, paths[1..], i - 1);
    }
  }

  /** preserve(redact(x), x) is x exactly when every listed leaf x has is a non-empty string. */
  lemma {:induction false} RoundTripExactlyWhen(v: Tree, paths: seq<Path>)
    requires Listed(paths)
    ensures CarryAll(DeleteAll(v, paths), v, paths) == v <==>
            forall i :: 0 <= i < |paths| && ReadAt(v, paths[i]).Some? ==> Populated(ReadAt(v, paths[i]))
  {
    RoundTrip(v, paths);
    NothingBlank(v, paths);
  }

  /** Redacted, an update reads the same whether or not stored credentials were carried onto it. */
  lemma {:induction false} RedactAfterCarry(incoming: Tree, existing: Tree, paths: seq<Path>)
    requires Listed(paths)
    ensures DeleteAll(CarryAll(incoming, existing, paths), paths) == DeleteAll(incoming, paths)
    decreases |paths|
  {
    if paths != [] {
      var p, rest := paths[0], paths[1..];
      var next := Carry(incoming, existing, p);
      RedactAfterCarry(next, existing, rest);
      DeleteAllCommutes(CarryAll(next, existing, rest), rest, p);
      DeleteAllCommutes(next, rest, p);
      if Populated(ReadAt(existing, p)) {
        DeleteAfterWrite(incoming, p, ReadAt(existing, p).value.text);
      }
    }
  }

  /** Redacting twice redacts once, and finds nothing left to report. */
  lemma {:induction false} RedactTwice(v: Tree, paths: seq<Path>)
    requires Listed(paths)
    ensures DeleteAll(DeleteAll(v, paths), paths) == DeleteAll(v, paths)
    ensures PopulatedPaths(DeleteAll(v, paths), paths) == []
  {
    var r := DeleteAll(v, paths);
    forall i | 0 <= i < |paths| ensures ReadAt(r, paths[i]).None? {
      RedactedReadsNothing(v, paths, i);
    }
    NothingToDelete(r, paths);
  }

  lemma {:induction false} NothingToDelete(v: Tree, paths: seq<Path>)
    requires Listed(paths) && forall i :: 0 <= i < |paths| ==> ReadAt(v, paths[i]).None?
    ensures DeleteAll(v, paths) == v && PopulatedPaths(v, paths) == []
    decreases |paths|
  {
    if paths != [] {
      AbsentDelete(v, paths[0]);
      forall i | 0 <= i < |paths[1..]| ensures ReadAt(v, paths[1..][i]).None? {
        assert paths[1..][i] == paths[i + 1];
      }
      NothingToDelete(v, paths[1..]);
    }
  }

  // ----- The list the code carries -----

  const SECRET_PATHS: seq<Path> := [
    ["oidcConfig", "clientSecret"],
    ["oidcConfig", "enterpriseManagedCredentials", "clientSecret"],
    ["oidcConfig", "enterpriseManagedCredentials", "privateKeyPem"],
    ["samlConfig", "privateKey"],
    ["samlConfig", "decryptionPvk"],
    ["samlConfig", "spMetadata", "privateKey"],
    ["samlConfig", "spMetadata", "privateKeyPass"],
    ["samlConfig", "spMetadata", "encPrivateKey"],
    ["samlConfig", "spMetadata", "encPrivateKeyPass"],
    ["samlConfig", "idpMetadata", "privateKey"],
    ["samlConfig", "idpMetadata", "privateKeyPass"],
    ["samlConfig", "idpMetadata", "encPrivateKey"],
    ["samlConfig", "idpMetadata", "encPrivateKeyPass"]]

  /** Some of the first three segments tell the two paths apart. */
  predicate DifferEarly(p: Path, q: Path) {
    |p| >= 2 && |q| >= 2 && (p[0] != q[0] || p[1] != q[1] || (|p| >= 3 && |q| >= 3 && p[2] != q[2]))
  }

  /** No listed path leads to another, so the laws above hold of the list in use. */
  lemma {:induction false} SecretPathsListed()
    ensures Listed(SECRET_PATHS)
  {
    assert "oidcConfig"[0] != "samlConfig"[0] && "spMetadata"[0] != "privateKey"[0];
    assert "privateKeyPem"[0] != "encPrivateKey"[0] && "privateKeyPem"[0] != "decryptionPvk"[0];
    forall i, j | 0 <= i < j < |SECRET_PATHS|
      ensures Apart(SECRET_PATHS[i], SECRET_PATHS[j])
    {
      assert DifferEarly(SECRET_PATHS[i], SECRET_PATHS[j]);
    }
  }

  predicate ShowsOidcSecret(v: Tree) {
    || ReadAt(v, ["oidcConfig", "clientSecret"]).Some?
    || ReadAt(v, ["oidcConfig", "enterpriseManagedCredentials", "clientSecret"]).Some?
    || ReadAt(v, ["oidcConfig", "enterpriseManagedCredentials", "privateKeyPem"]).Some?
  }

  predicate ShowsProviderKey(v: Tree) {
    || ReadAt(v, ["samlConfig", "privateKey"]).Some?
    || ReadAt(v, ["samlConfig", "decryptionPvk"]).Some?
  }

  predicate ShowsServiceKey(v: Tree) {
    || ReadAt(v, ["samlConfig", "spMetadata", "privateKey"]).Some?
    || ReadAt(v, ["samlConfig", "spMetadata", "privateKeyPass"]).Some?
    || ReadAt(v, ["samlConfig", "spMetadata", "encPrivateKey"]).Some?
    || ReadAt(v, ["samlConfig", "spMetadata", "encPrivateKeyPass"]).Some?
  }

  predicate ShowsIdentityKey(v: Tree) {
    || ReadAt(v, ["samlConfig", "idpMetadata", "privateKey"]).Some?
    || ReadAt(v, ["samlConfig", "idpMetadata", "privateKeyPass"]).Some?
    || ReadAt(v, ["samlConfig", "idpMetadata", "encPrivateKey"]).Some?
    || ReadAt(v, ["samlConfig", "idpMetadata", "encPrivateKeyPass"]).Some?
  }

  predicate ShowsSecret(v: Tree) {
    ShowsOidcSecret(v) || ShowsProviderKey(v) || ShowsServiceKey(v) || ShowsIdentityKey(v)
  }

  lemma {:induction false} NotShown(v: Tree, i: nat, p: Path)
    requires i < |SECRET_PATHS| && SECRET_PATHS[i] == p
    ensures ReadAt(DeleteAll(v, SECRET_PATHS), p).None?
  {
    SecretPathsListed();
    RedactedReadsNothing(v, SECRET_PATHS, i);
  }

  lemma {:induction false} NoOidcSecretShown(v: Tree)
    ensures !ShowsOidcSecret(DeleteAll(v, SECRET_PATHS))
  {
    NotShown(v, 0, ["oidcConfig", "clientSecret"]);
    NotShown(v, 1, ["oidcConfig", "enterpriseManagedCredentials", "clientSecret"]);
    NotShown(v, 2, ["oidcConfig", "enterpriseManagedCredentials", "privateKeyPem"]);
  }

  lemma {:induction false} NoProviderKeyShown(v: Tree)
    ensures !ShowsProviderKey(DeleteAll(v, SECRET_PATHS))
  {
    NotShown(v, 3, ["samlConfig", "privateKey"]);
    NotShown(v, 4, ["samlConfig", "decryptionPvk"]);
  }

  lemma {:induction false} NoServiceKeyShown(v: Tree)
    ensures !ShowsServiceKey(DeleteAll(v, SECRET_PATHS))
  {
    NotShown(v, 5, ["samlConfig", "spMetadata", "privateKey"]);
    NotShown(v, 6, ["samlConfig", "spMetadata", "privateKeyPass"]);
    NotShown(v, 7, ["samlConfig", "spMetadata", "encPrivateKey"]);
    NotShown(v, 8, ["samlConfig", "spMetadata", "encPrivateKeyPass"]);
  }

  lemma {:induction false} NoIdentityKeyShown(v: Tree)
    ensures !ShowsIdentityKey(DeleteAll(v, SECRET_PATHS))
  {
    NotShown(v, 9, ["samlConfig", "idpMetadata", "privateKey"]);
    NotShown(v, 10, ["samlConfig", "idpMetadata", "privateKeyPass"]);
    NotShown(v, 11, ["samlConfig", "idpMetadata", "encPrivateKey"]);
    NotShown(v, 12, ["samlConfig", "idpMetadata", "encPrivateKeyPass"]);
  }

  /** Redacted, no provider whatever shows any of the credentials it may hold. */
  lemma {:induction false} RedactedShowsNoSecret(v: Tree)
    ensures !ShowsSecret(DeleteAll(v, SECRET_PATHS))
  {
    NoOidcSecretShown(v);
    NoProviderKeyShown(v);
    NoServiceKeyShown(v);
    NoIdentityKeyShown(v);
  }
}
