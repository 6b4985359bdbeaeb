/**
 * A snapshot of BlueZ's managed-object tree, as `GetManagedObjects` returns it:
 * object paths in the order the dictionary iterates them, each with a map from
 * interface name to that interface's properties.
 */
module ObjectTree {

  /** A D-Bus object path such as "/org/bluez/hci0/dev_XX/service000c/char000d". */
  type Path = string

  /** Property name to value (the `.value` of each D-Bus variant). */
  type Props = map<string, string>

  datatype Entry = Entry(path: Path, interfaces: map<string, Props>)

  /** `objs.items()`, in iteration order. */
  type Snapshot = seq<Entry>
}
