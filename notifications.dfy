/** The toast notifications the pages and components show (the `sonner` and `use-toast` calls). */
module Notifications {
  /** The text of a toast notification, and whether it reports success. */
  datatype Toast = Toast(success: bool, message: string)
}
