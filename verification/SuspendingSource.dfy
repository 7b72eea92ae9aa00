// A data source that delivers the compressed bytes piece by piece, so that decoders must suspend.
module SuspendingSource {
  import opened Numerals
  import opened BitReader

  // The bytes not yet delivered, and the sizes of the pieces in which they will be; when these are
  // used up, all the rest comes at once.
  datatype Supply = Supply(pending: seq<byte>, cuts: seq<nat>) {
    // How often anything can still be delivered.
    function Left(): nat {
      if pending == [] then 0 else |cuts| + 1
    }
  }

  // A decoder that has suspended gets the next piece.
  method Refill(reader: Reader, supply: Supply) returns (supply': Supply)
    requires reader.Valid() && reader.future == supply.pending != []
    modifies reader
    ensures reader.Valid() && reader.future == supply'.pending && supply'.Left() < supply.Left()
    ensures reader.State() == old(reader.State()).(here := reader.Here(), future := supply'.pending)
  {
    var n := if supply.cuts != [] && supply.cuts[0] < |supply.pending| then supply.cuts[0] else |supply.pending|;
    reader.Supply(supply.pending[..n]);
    supply' := Supply(supply.pending[n..], if supply.cuts == [] then [] else supply.cuts[1..]);
  }
}
