/**
 * Messages the plugin shows to the user through the IDE. A message is identified
 * by the key of its localised resource and the argument substituted into it, so
 * the model does not depend on the translation in use.
 */
module Notifications {
  import opened Wrappers

  datatype Severity = Error | Warning

  datatype Notification = Notification(severity: Severity, key: string, argument: Option<string>)

  const FileNotFoundKey: string := "checkstyle.file-not-found"
  const SuppressionsNotFoundKey: string := "checkstyle.suppressions-not-found"

  /** The error shown when a configuration location cannot be read ("Not found: {0}"). */
  function FileNotFound(location: string): (n: Notification)
    ensures n.severity == Error && n.argument == Some(location)
  {
    Notification(Error, FileNotFoundKey, Some(location))
  }

  /** The warning shown when a suppression file cannot be found anywhere. */
  const SuppressionsNotFound: Notification := Notification(Warning, SuppressionsNotFoundKey, None)
}
