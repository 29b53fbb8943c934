/** The toast list of components/Toast.tsx. A toast is shown by appending it
    with a fresh random id (the id is a parameter here), and taken away, by
    its close button or by the timer three seconds later, with the same
    filter on its id. */
module Toasts {
  import Seqs

  datatype ToastType = Success | Error | Info

  datatype Toast = Toast(id: string, message: string, toastType: ToastType)

  /** `showToast`: exactly one toast more, at the end; the earlier ones are
      untouched. */
  function ShowToast(toasts: seq<Toast>, id: string, message: string, toastType: ToastType): (r: seq<Toast>)
    ensures |r| == |toasts| + 1
    ensures r[..|toasts|] == toasts
    ensures r[|toasts|] == Toast(id, message, toastType)
  {
    toasts + [Toast(id, message, toastType)]
  }

  function OtherTest(id: string): Toast -> bool
  {
    (t: Toast) => t.id != id
  }

  /** `removeToast`, and the timer's callback. */
  function RemoveToast(toasts: seq<Toast>, id: string): seq<Toast>
  {
    Seqs.Filter(toasts, OtherTest(id))
  }

  /** Removal takes out exactly the toasts with that id and keeps the rest in
      order; it changes nothing exactly when no toast has that id. */
  lemma RemoveToastExactly(toasts: seq<Toast>, id: string)
    ensures forall t :: t in RemoveToast(toasts, id) <==> t in toasts && t.id != id
    ensures Seqs.IsSubsequence(RemoveToast(toasts, id), toasts)
    ensures RemoveToast(toasts, id) == toasts <==> forall i :: 0 <= i < |toasts| ==> toasts[i].id != id
  {
    Seqs.FilterIsSubsequence(toasts, OtherTest(id));
    Seqs.FilterKeepsAll(toasts, OtherTest(id));
  }

  /** The timer firing after the close button (or a second click) does nothing. */
  lemma RemoveTwice(toasts: seq<Toast>, id: string)
    ensures RemoveToast(RemoveToast(toasts, id), id) == RemoveToast(toasts, id)
  {
    Seqs.FilterIdempotent(toasts, OtherTest(id));
  }

  /** Showing a toast with a fresh id and later removing it gives back the
      list as it was. */
  lemma ShowThenRemove(toasts: seq<Toast>, id: string, message: string, toastType: ToastType)
    requires forall i :: 0 <= i < |toasts| ==> toasts[i].id != id
    ensures RemoveToast(ShowToast(toasts, id, message, toastType), id) == toasts
  {
    Seqs.FilterConcat(toasts, [Toast(id, message, toastType)], OtherTest(id));
    Seqs.FilterKeepsAll(toasts, OtherTest(id));
  }

  /** A removal and a toast shown with another id commute, so the order in
      which a timer and a new toast arrive does not matter. */
  lemma RemoveShowCommute(toasts: seq<Toast>, id: string, other: string, message: string, toastType: ToastType)
    requires other != id
    ensures RemoveToast(ShowToast(toasts, other, message, toastType), id) ==
      ShowToast(RemoveToast(toasts, id), other, message, toastType)
  {
    Seqs.FilterConcat(toasts, [Toast(other, message, toastType)], OtherTest(id));
  }
}
