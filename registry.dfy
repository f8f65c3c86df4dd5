/**
 * The registry and the single-value rule as the template rule sees them.
 *
 * The Windows registry is a store of DWORD values addressed by root key, path and
 * value name. The single-value rule (`RegistrySingleValueDWORD`) is not part of this
 * model: its `Harden` and `IsHardened` reach the template rule as the function
 * parameters `HardenStep` and `HardenedProbe`, about which nothing is assumed.
 */
module Registry {
  import opened Wrappers

  /** The predefined root keys of the registry. */
  datatype RootKey = ClassesRoot | CurrentUser | LocalMachine | Users | CurrentConfig

  /** A registry DWORD, Go's `uint32`. */
  newtype DWord = x: int | 0 <= x < 0x1_0000_0000

  /** The address of one registry value. */
  datatype ValueKey = ValueKey(root: RootKey, path: string, valueName: string)

  /** The registry contents, as far as DWORD values go. */
  type Store = map<ValueKey, DWord>

  /** A Go `error` value other than nil. */
  datatype Error = Error(message: string)

  /** The fields of one `RegistrySingleValueDWORD` rule. */
  datatype SingleValueDWORD = SingleValueDWORD(
    rootKey: RootKey,
    path: string,
    valueName: string,
    hardenedValue: DWord,
    shortName: string,
    longName: string,
    description: string)

  /** What one call of a single-value rule's `Harden` returns: the registry afterwards and its error. */
  datatype StepResult = StepResult(store: Store, err: Option<Error>)

  /** `RegistrySingleValueDWORD.Harden(harden)`: acts on the registry, may fail. */
  type HardenStep = (SingleValueDWORD, bool, Store) -> StepResult

  /** `RegistrySingleValueDWORD.IsHardened()`: reads the registry, never fails. */
  type HardenedProbe = (SingleValueDWORD, Store) -> bool
}
