/** The notifications the pages raise through `useToast`. */
module Ui {
  /** A toast: its title, its description and whether it uses the destructive variant. */
  datatype Toast = Toast(title: string, description: string, destructive: bool)
}
