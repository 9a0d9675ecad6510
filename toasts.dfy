/** The transient notices ("toasts") the pages raise. Only their text is modelled. */
module Toasts {

  datatype Notice = Notice(title: string, description: string)
}
