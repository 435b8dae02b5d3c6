/** Vocabulary shared by the optimizer's node models: change tags, exception
    kinds recorded as escapes, the Python dialect the compiler runs under, and
    the usual Option wrapper. */
module Common {

  datatype Option<+T> = None | Some(value: T)

  /** The change categories a compute step reports. Tags are strings in the
      compiler; the ones the modelled code names get their own constructor. */
  datatype Tag =
    | NewExpression
    | NewConstant
    | NewRaise
    | NewCode
    | NewStatements
    | VarUsage
    | OtherTag(name: string)

  /** The exception classes the modelled nodes hand to `onExceptionRaiseExit`. */
  datatype ExcKind = BaseException | ImportError | AttributeError | RuntimeError

  /** Python versions are compared as the compiler does, as hex numbers:
      0x270 is 2.7, 0x390 is 3.9. */
  type Version = nat

  const Py26: Version := 0x260
  const Py27: Version := 0x270
  const Py30: Version := 0x300
  const Py34: Version := 0x340
  const Py36: Version := 0x360
  const Py37: Version := 0x370
  const Py39: Version := 0x390

  /** `str is bytes` holds exactly on Python 2. */
  predicate StrIsBytes(version: Version)
  {
    version < Py30
  }
}
