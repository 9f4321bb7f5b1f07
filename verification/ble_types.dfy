/** Values the BLE home screen handles: peripherals reported by the scanner,
    decoded characteristic samples and Android permission results. */
module BleTypes {

  /** JavaScript's `null`-or-value, as used for the optional screen fields. */
  datatype Option<+T> = None | Some(value: T)

  /** A peripheral object as the scan callback delivers it. The library may
      leave `id` or `name` unset (`null`); an empty string is also possible. */
  datatype Peripheral = Peripheral(id: Option<string>, name: Option<string>)

  /** The result of `parseInt(characteristic.value, 10)`: an integer; `NaN`
      when the text has no numeric prefix; or an infinity when the digit
      prefix is too long for a double (over about 308 digits), signed like
      the text. Which one a raw value yields is not modelled; the screen
      stores whatever it gets. */
  datatype Sample = Int(n: int) | NaN | Inf(negative: bool)

  /** The status strings `PermissionsAndroid.requestMultiple` reports. */
  datatype PermissionStatus = Granted | Denied | NeverAskAgain

  /** JavaScript truthiness of an optional string: set and non-empty. */
  predicate Truthy(s: Option<string>)
  {
    s.Some? && |s.value| > 0
  }
}
