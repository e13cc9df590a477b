/** The preferences store of src/stores/appStore.ts: four fields, one setter
    each, and a sidebar toggle. */
module AppStore {

  datatype Tab = ChatTab | FilesTab | SettingsTab

  const DefaultModel: string := "llama3.2"
  const DefaultModels: seq<string> := ["llama3.2", "mistral", "codellama", "phi3"]

  class App {
    var activeTab: Tab
    var selectedModel: string
    var availableModels: seq<string>
    var sidebarCollapsed: bool

    constructor ()
      ensures activeTab == ChatTab && selectedModel == DefaultModel
      ensures availableModels == DefaultModels && !sidebarCollapsed
    {
      activeTab := ChatTab;
      selectedModel := DefaultModel;
      availableModels := DefaultModels;
      sidebarCollapsed := false;
    }

    method SetActiveTab(tab: Tab)
      modifies this
      ensures activeTab == tab
      ensures selectedModel == old(selectedModel) && availableModels == old(availableModels)
      ensures sidebarCollapsed == old(sidebarCollapsed)
    {
      activeTab := tab;
    }

    /** Any name is accepted: nothing checks it against `availableModels`. */
    method SetSelectedModel(model: string)
      modifies this
      ensures selectedModel == model
      ensures activeTab == old(activeTab) && availableModels == old(availableModels)
      ensures sidebarCollapsed == old(sidebarCollapsed)
    {
      selectedModel := model;
    }

    /** Replaces the list; the selected model is left as it is, listed or not. */
    method SetAvailableModels(models: seq<string>)
      modifies this
      ensures availableModels == models
      ensures activeTab == old(activeTab) && selectedModel == old(selectedModel)
      ensures sidebarCollapsed == old(sidebarCollapsed)
    {
      availableModels := models;
    }

    method ToggleSidebar()
      modifies this
      ensures sidebarCollapsed == !old(sidebarCollapsed)
      ensures activeTab == old(activeTab) && selectedModel == old(selectedModel)
      ensures availableModels == old(availableModels)
    {
      sidebarCollapsed := !sidebarCollapsed;
    }
  }

  /** What a caller can rely on: toggling twice restores the store, and a model
      outside the list can be selected. */
  method ClientToggleTwice(app: App, model: string)
    requires model !in app.availableModels
    modifies app
    ensures app.sidebarCollapsed == old(app.sidebarCollapsed) && app.activeTab == old(app.activeTab)
    ensures app.selectedModel == model && model !in app.availableModels
  {
    app.ToggleSidebar();
    app.ToggleSidebar();
    app.SetSelectedModel(model);
  }
}
