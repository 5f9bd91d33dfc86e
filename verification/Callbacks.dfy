/** How OpenSSL drives either program: callbacks made during one SSL_do_handshake. */
module Callbacks {
  import opened Streams

  const SECRET_LEN: nat := 32
  const PARAMS_CAPACITY: nat := 512
  const READ_SECRET := 0
  const WRITE_SECRET := 1
  const SSL_ERROR_NONE := 0
  const SSL_ERROR_WANT_READ := 2
  const SSL_ERROR_WANT_WRITE := 3

  /** What OpenSSL may do while it is in control: any of these, any arguments, any order. */
  datatype Callback =
    | Send(data: seq<byte>)
    | Receive
    | Release(count: nat)
    | YieldSecret(level: nat, direction: int, secret: seq<byte>)
    | GotParams(params: seq<byte>)

  /** One SSL_do_handshake: the callbacks it made, its return code, and SSL_get_error's answer. */
  datatype Drive = Drive(script: seq<Callback>, rc: int, sslError: int)
}
