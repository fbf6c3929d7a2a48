/** The UI store (src/store/useUIStore.ts): the dark-mode flag, the task
    modal and the delete confirmation. The stored dark-mode setting is a
    parameter; writing it back and toggling the page's `dark` class are not
    modelled. */
module UIStore {
  import opened Types

  datatype ModalState = ModalState(taskId: Option<string>, open: bool, mode: ModalMode)

  datatype DeleteConfirm = DeleteConfirm(open: bool, taskId: Option<string>)

  const ClosedModal: ModalState := ModalState(None, false, CreateMode)

  const ClosedConfirm: DeleteConfirm := DeleteConfirm(false, None)

  /** `getInitialDarkMode`: a non-empty stored value decides, and it means
      dark only when it is "true"; with nothing stored the board is dark. */
  function InitialDarkMode(stored: Option<string>): bool
  {
    if IsTruthy(stored) then stored.value == "true" else true
  }

  class UIStore {
    var darkMode: bool
    var taskModal: ModalState
    var deleteConfirm: DeleteConfirm

    constructor(stored: Option<string>)
      ensures darkMode == InitialDarkMode(stored)
      ensures taskModal == ClosedModal && deleteConfirm == ClosedConfirm
    {
      darkMode := if stored.Some? && stored.value != "" then stored.value == "true" else true;
      taskModal := ModalState(None, false, CreateMode);
      deleteConfirm := DeleteConfirm(false, None);
    }

    method ToggleDarkMode()
      modifies this
      ensures darkMode == !old(darkMode)
      ensures taskModal == old(taskModal) && deleteConfirm == old(deleteConfirm)
    {
      darkMode := !darkMode;
    }

    method SetDarkMode(dark: bool)
      modifies this
      ensures darkMode == dark
      ensures taskModal == old(taskModal) && deleteConfirm == old(deleteConfirm)
    {
      darkMode := dark;
    }

    method OpenTaskModal(mode: ModalMode, taskId: Option<string>)
      modifies this
      ensures taskModal == ModalState(taskId, true, mode)
      ensures darkMode == old(darkMode) && deleteConfirm == old(deleteConfirm)
    {
      taskModal := ModalState(taskId, true, mode);
    }

    method CloseTaskModal()
      modifies this
      ensures taskModal == ClosedModal
      ensures darkMode == old(darkMode) && deleteConfirm == old(deleteConfirm)
    {
      taskModal := ModalState(None, false, CreateMode);
    }

    method OpenDeleteConfirm(taskId: string)
      modifies this
      ensures deleteConfirm == DeleteConfirm(true, Some(taskId))
      ensures darkMode == old(darkMode) && taskModal == old(taskModal)
    {
      deleteConfirm := DeleteConfirm(true, Some(taskId));
    }

    method CloseDeleteConfirm()
      modifies this
      ensures deleteConfirm == ClosedConfirm
      ensures darkMode == old(darkMode) && taskModal == old(taskModal)
    {
      deleteConfirm := DeleteConfirm(false, None);
    }
  }

  /** The board starts dark unless a stored value other than "true" says
      otherwise. */
  lemma InitialDarkModeSpec(stored: Option<string>)
    ensures !InitialDarkMode(stored) <==> stored.Some? && stored.value != "" && stored.value != "true"
    ensures InitialDarkMode(Some("false")) == false
  {
  }
}
