/** The receiver on unbounded packet numbers: no wrap, no ring, no payloads.  A view says which
    packets past `current` have been received, which of those still wait to be published, and
    which packets were published, in order. */
module Reassembly {

  datatype View = View(
    current: int,
    last: int,
    received: set<int>,
    waiting: set<int>,
    delivered: seq<int>)

  const START := View(0, 0, {}, {}, [])

  function Skip(v: View, window: nat): View {
    if v.last - v.current > window then
      View(v.current + 1, v.last, v.received - {v.current}, v.waiting - {v.current}, v.delivered)
    else v
  }

  function Receive(v: View, ordered: bool, window: nat, n: int): View {
    Accept(Skip(v, window), ordered, window, n)
  }

  function Accept(v: View, ordered: bool, window: nat, n: int): View {
    if n <= v.current then v else
    var v1 := Admit(v, n);
    if n in v1.received then v1 else
    Publish(Store(v1, n), ordered, window)
  }

  function Admit(v: View, n: int): View {
    var v1 := if n > v.last then v.(last := n) else v;
    if n == v1.current + 1 then
      v1.(current := n, received := v1.received - {v1.current}, waiting := v1.waiting - {v1.current})
    else v1
  }

  function Store(v: View, n: int): View {
    v.(received := v.received + {n}, waiting := v.waiting + {n})
  }

  function Publish(v: View, ordered: bool, window: nat): View {
    PublishFrom(v, ordered, v.current, true, window)
  }

  function PublishFrom(v: View, ordered: bool, n: int, step: bool, budget: nat): View
    decreases budget
  {
    if budget == 0 then v else
    var v' := if n in v.received then PublishOne(v, n, step) else v;
    if n !in v.received && ordered then v else
    if n == v.last then v' else
    PublishFrom(v', ordered, n + 1, step && n in v.received, budget - 1)
  }

  function PublishOne(v: View, n: int, step: bool): View {
    var v1 := if n == v.current then v.(received := v.received - {n})
              else if step && n > v.current then v.(current := n, received := v.received - {n})
              else v;
    if n in v.waiting then v1.(waiting := v1.waiting - {n}, delivered := v1.delivered + [n]) else v1
  }
}
