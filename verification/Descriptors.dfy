/** The names shared by the models of the shells: pipes, descriptors, and the usual option type. */
module Descriptors {

  datatype Option<+T> = None | Some(value: T)

  /** A pipe is named by the command line and the stage whose pipe() call made it.
      Every stage makes at most one pipe, so the name is unique over a whole run. */
  datatype Pipe = Pipe(line: nat, stage: nat)

  /** What a descriptor refers to. Terminal is descriptor 0 of the server itself, which the
      source also uses as the value "no input". */
  datatype Desc =
    | Terminal
    | Socket(client: nat)
    | Rd(pipe: Pipe)
    | Wr(pipe: Pipe)
}
