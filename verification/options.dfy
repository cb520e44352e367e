/** The null-or-value wrapper used for the engine's design slots: a slot holds a
    design (its name) or is empty, where the engine returns a null pointer. */
module Options {

  datatype Option<+T> = None | Some(value: T)
}
