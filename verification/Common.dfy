/** Types that several of the models share. */
module Common {
  datatype Option<+T> = None | Some(value: T)

  type byte = b: int | 0 <= b < 256
  type uint16 = n: int | 0 <= n < 0x1_0000
  type uint32 = n: int | 0 <= n < 0x1_0000_0000

  /** What a timer or a task runs: a user function, or the timeout function that blocking call
      number `call` hands to its condition timer. */
  datatype Callback = UserCallback(id: nat) | TimeoutOf(call: nat)
}
