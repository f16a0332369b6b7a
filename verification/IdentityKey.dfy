/** The key findings are deduplicated by, and exactly when it separates two identities. */
module IdentityKey {
  import opened Joining
  import opened Findings
  import opened Consolidation

  function Components(id: Identity): seq<string> {
    [id.scanId, id.scheme, id.host, Itoa(id.port), id.path, id.httpMethod,
     id.parameter, id.parameterLocation, id.vulnerabilityType, id.resourceIdentifier]
  }

  function Key(id: Identity): string {
    Join(Components(id), UNIT_SEPARATOR)
  }

  function FindingId(idDigest: Digest, id: Identity): string {
    idDigest(Key(id))
  }

  /** The identity with its i-th and next component replaced; the port has no neighbour here. */
  function WithPair(id: Identity, i: nat, x: string, y: string): (r: Identity)
    requires i in {0, 1, 4, 5, 6, 7, 8}
    ensures Components(r) == Components(id)[i := x][i + 1 := y]
  {
    match i
    case 0 => id.(scanId := x, scheme := y)
    case 1 => id.(scheme := x, host := y)
    case 4 => id.(path := x, httpMethod := y)
    case 5 => id.(httpMethod := x, parameter := y)
    case 6 => id.(parameter := x, parameterLocation := y)
    case 7 => id.(parameterLocation := x, vulnerabilityType := y)
    case _ => id.(vulnerabilityType := x, resourceIdentifier := y)
  }

  /** A component holding the separator lets another identity share the key. */
  lemma SeparatorCollides(id: Identity, i: nat) returns (other: Identity)
    requires i < 10 && !Free(Components(id)[i], UNIT_SEPARATOR)
    ensures other != id && Key(other) == Key(id)
  {
    ItoaFree(id.port, UNIT_SEPARATOR);
    var c := Components(id);
    var a, b := SplitAtSeparator(c[i], UNIT_SEPARATOR);
    if i == 2 || i == 9 {
      var x := c[i - 1] + [UNIT_SEPARATOR] + a;
      other := WithPair(id, i - 1, x, b);
      assert |x| > |c[i - 1]|;
      assert Components(other)[i - 1] == x;
      JoinNeighbours(c, i - 1, x, b, UNIT_SEPARATOR);
    } else {
      var y := b + [UNIT_SEPARATOR] + c[i + 1];
      other := WithPair(id, i, a, y);
      assert |a| < |c[i]|;
      assert Components(other)[i] == a;
      JoinNeighbours(c, i, a, y, UNIT_SEPARATOR);
    }
  }

  /** A key identifies its identity among all identities exactly when no component of it holds the
      separator byte. */
  lemma KeyDeterminesIdentity(id: Identity)
    ensures (forall other: Identity :: Key(other) == Key(id) ==> other == id)
       <==> AllFree(Components(id), UNIT_SEPARATOR)
  {
    if AllFree(Components(id), UNIT_SEPARATOR) {
      forall other: Identity | Key(other) == Key(id) ensures other == id {
        JoinDetermines(Components(id), Components(other), UNIT_SEPARATOR);
        var c, d := Components(id), Components(other);
        assert c[0] == d[0] && c[1] == d[1] && c[2] == d[2] && c[3] == d[3] && c[4] == d[4];
        assert c[5] == d[5] && c[6] == d[6] && c[7] == d[7] && c[8] == d[8] && c[9] == d[9];
        ItoaInjective(id.port, other.port);
      }
    } else {
      var i :| 0 <= i < 10 && !Free(Components(id)[i], UNIT_SEPARATOR);
      var other := SeparatorCollides(id, i);
    }
  }
}
