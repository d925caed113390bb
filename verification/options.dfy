/** The optional value used for the channel arrays of a colour buffer: `None`
    stands for a C# array reference that was never assigned (null). */
module Options {

  datatype Option<+T> = None | Some(value: T)
}
