/** The four `invertCommand` overloads: each maps a command value to its
    semantic opposite, for devices whose actuator is wired the other way round. */
module Inverter {

  datatype OnOff = On | Off

  datatype UpDown = Up | Down

  /** The ON/OFF inverter: ON becomes OFF, anything else becomes ON. */
  function InvertOnOff(cmd: OnOff): (r: OnOff)
    ensures r != cmd
    ensures cmd == On <==> r == Off
  {
    if cmd == On then Off else On
  }

  /** The UP/DOWN inverter: UP becomes DOWN, anything else becomes UP. */
  function InvertUpDown(cmd: UpDown): (r: UpDown)
    ensures r != cmd
    ensures cmd == Up <==> r == Down
  {
    if cmd == Up then Down else Up
  }

  /** The boolean inverter. */
  function InvertBool(cmd: bool): (r: bool)
    ensures r != cmd
  {
    if cmd then false else true
  }

  /** The percent inverter: the complement of `p` to one hundred percent.
      A percent is a whole number in [0, 100]. */
  function InvertPercent(p: int): (r: int)
    requires 0 <= p <= 100
    ensures 0 <= r <= 100
    ensures r + p == 100
  {
    100 - p
  }

  /** Every inverter undoes itself. */
  lemma InvertersAreInvolutions(o: OnOff, u: UpDown, b: bool, p: int)
    requires 0 <= p <= 100
    ensures InvertOnOff(InvertOnOff(o)) == o
    ensures InvertUpDown(InvertUpDown(u)) == u
    ensures InvertBool(InvertBool(b)) == b
    ensures InvertPercent(InvertPercent(p)) == p
  {
  }

  /** The percent inverter swaps fully open and fully closed, keeps the
      half-way point, and reverses the order of positions. */
  lemma InvertPercentReversesScale(p: int, q: int)
    requires 0 <= p <= 100 && 0 <= q <= 100
    ensures InvertPercent(0) == 100 && InvertPercent(100) == 0
    ensures InvertPercent(50) == 50
    ensures InvertPercent(p) == p <==> p == 50
    ensures p < q <==> InvertPercent(q) < InvertPercent(p)
  {
  }
}
