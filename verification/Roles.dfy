/** The two processes of a point-to-point run. */
module Roles {
  datatype Role = Tx | Rx {
    function Peer(): Role { if Tx? then Rx else Tx }
  }

  /** Two processes and the puts on their way to each of them, oldest first. */
  datatype Sides<+N, +P> = Sides(tx: N, rx: N, putsToTx: seq<P>, putsToRx: seq<P>)

  function At<N, P>(s: Sides<N, P>, r: Role): N { if r.Tx? then s.tx else s.rx }

  function PutsTo<N, P>(s: Sides<N, P>, r: Role): seq<P> { if r.Tx? then s.putsToTx else s.putsToRx }

  function WithNode<N, P>(s: Sides<N, P>, r: Role, m: N): Sides<N, P> {
    if r.Tx? then s.(tx := m) else s.(rx := m)
  }

  function WithPuts<N, P>(s: Sides<N, P>, r: Role, q: seq<P>): Sides<N, P> {
    if r.Tx? then s.(putsToTx := q) else s.(putsToRx := q)
  }
}
