/** The composite identifiers the masters and the store use, and when they come apart again
    (master/master.go, getNodeID, getLeaderAddress, genMasterID, getResourcePath). */
module Identifiers {
  import opened Spider
  import opened Text

  const RESOURCEPATH := "/resources"

  function GetResourcePath(name: string): string {
    RESOURCEPATH + "/" + name
  }

  function GetNodeID(nodeSpec: string): Option<string> {
    var node := Split(nodeSpec, '|');
    if |node| < 2 then None else Some(node[0])
  }

  function Assigned(id: string, address: string): string {
    id + "|" + address
  }

  function GenMasterID(id: string, ipv4: string, grpcAddress: string): string {
    "master" + id + "-" + ipv4 + grpcAddress
  }

  function GetLeaderAddress(address: string): string {
    var s := Split(address, '-');
    if |s| < 2 then "" else s[1]
  }

  lemma {:induction false} PathsDiffer(a: string, b: string)
    ensures GetResourcePath(a) == GetResourcePath(b) ==> a == b
    ensures RESOURCEPATH <= GetResourcePath(a) && "/resources/" <= GetResourcePath(a) && GetResourcePath(a)[11..] == a
  {
    var n := |RESOURCEPATH| + 1;
    assert GetResourcePath(a)[n..] == a && GetResourcePath(b)[n..] == b;
  }

  /** What comes before the first '|', and an error exactly when there is none. */
  lemma {:induction false} NodeIDIsBeforeBar(nodeSpec: string)
    ensures GetNodeID(nodeSpec).None? <==> '|' !in nodeSpec
    ensures '|' in nodeSpec ==> GetNodeID(nodeSpec) == Some(nodeSpec[..IndexOf(nodeSpec, '|')])
  {
    if '|' in nodeSpec {
      SplitAtSeparator(nodeSpec, '|');
    } else {
      SplitWhole(nodeSpec, '|');
    }
  }

  /** An assignment is the id, a bar and the address: with a bar-free id, splitting it gives the id first and
      the address as the rest. */
  lemma {:induction false} AssignmentSplits(id: string, address: string)
    requires '|' !in id
    ensures Split(Assigned(id, address), '|') == [id] + Split(address, '|')
    ensures '|' !in address ==> Split(Assigned(id, address), '|') == [id, address]
  {
    assert Assigned(id, address) == id + ['|'] + address;
    SplitFirst(id, '|', address);
    SplitWhole(address, '|');
  }

  /** The node id comes back exactly when it contains no '|'. */
  lemma {:induction false} NodeIDRoundTrip(id: string, address: string)
    ensures GetNodeID(Assigned(id, address)) == Some(id) <==> '|' !in id
    ensures GetNodeID(Assigned(id, address)).Some?
  {
    var s := Assigned(id, address);
    assert s == id + ['|'] + address;
    PiecesClean(s, '|');
    assert s[|id|] == '|';
    SplitAtSeparator(s, '|');
    if '|' !in id {
      SplitFirst(id, '|', address);
    }
  }

  /** A master's address comes back from its id exactly when it has no '-' and either the id has none
      or the id happens to carry the same text between its first dashes. */
  lemma {:induction false} LeaderAddressRoundTrip(id: string, ipv4: string, grpcAddress: string)
    ensures GetLeaderAddress(GenMasterID(id, ipv4, grpcAddress)) == ipv4 + grpcAddress <==>
            '-' !in ipv4 + grpcAddress && ('-' !in id || Split(id, '-')[1] == ipv4 + grpcAddress)
  {
    var address := ipv4 + grpcAddress;
    var s := GenMasterID(id, ipv4, grpcAddress);
    var head := "master" + id;
    assert s == head + ['-'] + address;
    if '-' !in id {
      assert '-' !in head;
      SplitFirst(head, '-', address);
      PiecesClean(address, '-');
      SplitWhole(address, '-');
    } else {
      DashedID(id, address);
    }
  }

  /** A master id starts with the word and the dash-free id, and what has no dash is no master's address. */
  lemma {:induction false} MasterIDSplits(id: string, ipv4: string, grpcAddress: string)
    requires '-' !in id
    ensures Split(GenMasterID(id, ipv4, grpcAddress), '-') == ["master" + id] + Split(ipv4 + grpcAddress, '-')
  {
    assert '-' !in "master" + id;
    assert GenMasterID(id, ipv4, grpcAddress) == "master" + id + ['-'] + (ipv4 + grpcAddress);
    SplitFirst("master" + id, '-', ipv4 + grpcAddress);
  }

  lemma {:induction false} NoLeaderAddress(address: string)
    ensures '-' !in address ==> GetLeaderAddress(address) == ""
  {
    SplitWhole(address, '-');
  }

  /** With a dash in the id, the second piece of the master id is the second piece of the id. */
  lemma {:induction false} DashedID(id: string, address: string)
    requires '-' in id
    ensures var s := "master" + id + ['-'] + address;
            && |Split(s, '-')| >= 2 && |Split(id, '-')| >= 2
            && Split(s, '-')[1] == Split(id, '-')[1] && '-' !in Split(id, '-')[1]
  {
    SplitAtSeparator(id, '-');
    var i := IndexOf(id, '-');
    var first, rest := id[..i], id[i + 1..];
    Reassociate("master", first, rest, address);
    assert '-' !in "master" + first;
    SplitFirst("master" + first, '-', rest + ['-'] + address);
    FirstPiece(rest, address);
  }

  lemma {:induction false} Reassociate(a: string, b: string, c: string, d: string)
    ensures a + (b + ['-'] + c) + ['-'] + d == (a + b) + ['-'] + (c + ['-'] + d)
  {
  }

  /** Text after a dash does not change the first piece. */
  lemma {:induction false} FirstPiece(s: string, more: string)
    ensures Split(s + ['-'] + more, '-')[0] == Split(s, '-')[0] && '-' !in Split(s, '-')[0]
  {
    PiecesClean(s, '-');
    if '-' in s {
      SplitAtSeparator(s, '-');
      var j := IndexOf(s, '-');
      Reassociate("", s[..j], s[j + 1..], more);
      assert "" + s[..j] == s[..j];
      assert "" + (s[..j] + ['-'] + s[j + 1..]) == s;
      SplitFirst(s[..j], '-', s[j + 1..] + ['-'] + more);
    } else {
      SplitWhole(s, '-');
      SplitFirst(s, '-', more);
    }
  }
}
