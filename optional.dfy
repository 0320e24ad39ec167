/** An optional value: stands for JavaScript's `undefined`/`null` where the
    source distinguishes "absent" from any present value. */
module Optional {

  datatype Option<+T> = None | Some(value: T)
}
