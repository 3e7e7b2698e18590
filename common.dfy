/** Values shared by the legacy side and the target side of the migration. */
module Common {

  datatype Option<T> = None | Some(value: T)

  /** A nullable VARCHAR column: `None` is SQL NULL, read back as a Java `null` String. */
  type Text = Option<string>

  /** `java.sql.Date`, `BigDecimal` and `java.sql.Timestamp` values are only copied through. */
  datatype Date = Date(epochDay: int)
  datatype Decimal = Decimal(unscaled: int, scale: int)
  datatype Timestamp = Timestamp(epochMillis: int)

  /** The ways a migration run stops early. */
  datatype Error =
    | NullRole          // an ACCOUNT row with a NULL ACC_ROLE reaches the group pass
    | UnknownOwner      // a legacy row names a person id that was never loaded
    | NoAccountWithSsn  // the select by SSN returns no row

  datatype Outcome = Done | Failed(error: Error)

  datatype Result<T> = Ok(value: T) | Err(error: Error)
}
